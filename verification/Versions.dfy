/** Versions (cmd/aril/version.go): semver parsing, printing and precedence. */
module Versions {
  import opened Wrappers
  import opened Strings

  /** A parsed release version; `pre` is the pre-release without its hyphen. */
  datatype Semver = Semver(major: int, minor: int, patch: int, pre: string) {
    predicate InRange() {
      0 <= major <= MAX_INT && 0 <= minor <= MAX_INT && 0 <= patch <= MAX_INT
    }
  }

  // ---------------------------------------------------------------- parsing and printing

  /** String. */
  function Show(v: Semver): string { "v" + Core(v) }

  /** versionCore: the version without its `v`. */
  function Core(v: Semver): string { Numbers(v) + if v.pre == "" then "" else "-" + v.pre }

  function Numbers(v: Semver): string { Spell(v.major) + "." + Spell(v.minor) + "." + Spell(v.patch) }

  /** One component: a missing one is 0. */
  function Component(parts: seq<string>, i: nat): Option<int> {
    if i >= |parts| then Some(0) else
    match Atoi(parts[i]) case Some(n) => (if n < 0 then None else Some(n)) case None => None
  }

  /** The text up to a mark, and the text behind it. */
  function Before(s: string, c: char): string { s[..IndexOf(s, c)] }
  function Behind(s: string, c: char): string { if c in s then s[IndexOf(s, c) + 1..] else "" }

  function ParseNumbers(numbers: string, pre: string): (r: Option<Semver>)
    ensures r.Some? ==> r.value.InRange() && r.value.pre == pre
  {
    var parts := Split(numbers, '.');
    if |parts| > 3 then None else
    match (Component(parts, 0), Component(parts, 1), Component(parts, 2))
    case (Some(x), Some(y), Some(z)) => Some(Semver(x, y, z, pre))
    case _ => None
  }

  /** parseSemverCore: without the build metadata, and the pre-release apart. */
  function ParseCore(text: string): (r: Option<Semver>)
    ensures r.Some? ==> r.value.InRange() && '+' !in r.value.pre
  {
    var body := Before(text, '+');
    ParseNumbers(Before(body, '-'), Behind(body, '-'))
  }

  /** parseSemver. */
  function Parse(s: string): (r: Option<Semver>)
    ensures r.Some? ==> r.value.InRange() && '+' !in r.value.pre
  {
    if HasPrefix(s, "v") then ParseCore(s[1..]) else None
  }

  lemma {:induction false} IndexOfAfter(before: string, after: string, c: char)
    requires c !in before
    ensures IndexOf(before + after, c) == |before| + IndexOf(after, c)
    decreases |before|
  {
    var s := before + after;
    if before == "" {
      assert s == after;
    } else {
      assert s[1..] == before[1..] + after;
      IndexOfAfter(before[1..], after, c);
    }
  }

  lemma SpellHasNo(n: int, c: char)
    requires 0 <= n <= MAX_INT && !IsDigit(c)
    ensures c !in Spell(n) && Atoi(Spell(n)) == Some(n)
  {
    DecIsDigits(n);
    AtoiOfSpell(n);
  }

  lemma NumbersHaveNo(v: Semver, c: char)
    requires v.InRange() && !IsDigit(c) && c != '.'
    ensures c !in Numbers(v)
  {
    SpellHasNo(v.major, c);
    SpellHasNo(v.minor, c);
    SpellHasNo(v.patch, c);
  }

  lemma NumbersSplit(v: Semver)
    requires v.InRange()
    ensures Split(Numbers(v), '.') == [Spell(v.major), Spell(v.minor), Spell(v.patch)]
  {
    SpellHasNo(v.major, '.');
    SpellHasNo(v.minor, '.');
    SpellHasNo(v.patch, '.');
    SplitThree(Spell(v.major), Spell(v.minor), Spell(v.patch));
  }

  lemma SplitThree(x: string, y: string, z: string)
    requires '.' !in x && '.' !in y && '.' !in z
    ensures Split(x + "." + y + "." + z, '.') == [x, y, z]
  {
    var parts := [x, y, z];
    assert parts[1..] == [y, z] && parts[1..][1..] == [z];
    assert Join([y, z], '.') == y + ['.'] + z;
    assert Join(parts, '.') == x + "." + y + "." + z;
    SplitJoin(parts, '.');
  }

  lemma ParsesNumbers(v: Semver, pre: string)
    requires v.InRange()
    ensures ParseNumbers(Numbers(v), pre) == Some(v.(pre := pre))
  {
    NumbersSplit(v);
    SpellHasNo(v.major, '.');
    SpellHasNo(v.minor, '.');
    SpellHasNo(v.patch, '.');
  }

  lemma BeforeAndBehind(before: string, c: char, after: string)
    requires c !in before
    ensures Before(before + [c] + after, c) == before && Behind(before + [c] + after, c) == after
  {
    IndexOfAt(before, c, after);
    var s := before + [c] + after;
    assert s[|before|] == c && s[|before| + 1..] == after && s[..|before|] == before;
  }

  lemma NoMark(s: string, c: char)
    requires c !in s
    ensures Before(s, c) == s && Behind(s, c) == ""
  {
  }

  /** What is read back from a printed version. */
  lemma ParsesCore(v: Semver)
    requires v.InRange()
    ensures ParseCore(Core(v)) == Some(v.(pre := Before(v.pre, '+')))
  {
    var numbers := Numbers(v);
    NumbersHaveNo(v, '+');
    NumbersHaveNo(v, '-');
    if v.pre == "" {
      assert Core(v) == numbers;
      NoMark(numbers, '+');
      NoMark(numbers, '-');
      ParsesNumbers(v, "");
    } else {
      var pre := Before(v.pre, '+');
      assert Core(v) == (numbers + "-") + v.pre;
      IndexOfAfter(numbers + "-", v.pre, '+');
      assert Before(Core(v), '+') == numbers + ['-'] + pre;
      BeforeAndBehind(numbers, '-', pre);
      ParsesNumbers(v, pre);
    }
  }

  lemma ParseTag(core: string)
    ensures Parse("v" + core) == ParseCore(core)
  {
    assert ("v" + core)[1..] == core;
  }

  lemma BeforeExactly(s: string, c: char)
    ensures Before(s, c) == s <==> c !in s
  {
    if c in s { assert |Before(s, c)| < |s|; }
  }

  /** Printing then parsing gives the version back exactly when its pre-release has no `+`. */
  lemma ParseInvertsShow(v: Semver)
    requires v.InRange()
    ensures ParseCore(Core(v)) == Parse(Show(v))
    ensures Parse(Show(v)) == Some(v) <==> '+' !in v.pre
  {
    ParseTag(Core(v));
    ParsesCore(v);
    BeforeExactly(v.pre, '+');
  }

  // ---------------------------------------------------------------- precedence

  function CmpInt(a: int, b: int): int { if a < b then -1 else if a > b then 1 else 0 }

  /** Two different identifiers. */
  function CompareId(x: string, y: string): int {
    match (Atoi(x), Atoi(y))
    case (Some(m), Some(n)) => CmpInt(m, n)
    case (Some(_), None) => -1
    case (None, Some(_)) => 1
    case (None, None) => if StringLess(x, y) then -1 else 1
  }

  function CompareIds(xs: seq<string>, ys: seq<string>): int {
    if xs == [] || ys == [] then CmpInt(|xs|, |ys|)
    else if xs[0] == ys[0] then CompareIds(xs[1..], ys[1..])
    else CompareId(xs[0], ys[0])
  }

  function Ids(pre: string): seq<string> { Split(pre, '.') }

  /** compare: the sign of v against o. */
  function Compare(v: Semver, o: Semver): int {
    if v.major != o.major then CmpInt(v.major, o.major)
    else if v.minor != o.minor then CmpInt(v.minor, o.minor)
    else if v.patch != o.patch then CmpInt(v.patch, o.patch)
    else if v.pre == o.pre then 0
    else if v.pre == "" then 1
    else if o.pre == "" then -1
    else CompareIds(Ids(v.pre), Ids(o.pre))
  }

  /** comparePre, as its loop runs. */
  method ComparePre(a: string, b: string) returns (r: int)
    ensures r == CompareIds(Ids(a), Ids(b))
  {
    var xs, ys := Split(a, '.'), Split(b, '.');
    var i := 0;
    while i < |xs| && i < |ys|
      invariant i <= |xs| && i <= |ys| && CompareIds(xs, ys) == CompareIds(xs[i..], ys[i..])
    {
      var x, y := xs[i], ys[i];
      if x != y {
        var xn, yn := Atoi(x), Atoi(y);
        if xn.Some? && yn.Some? { return CmpInt(xn.value, yn.value); }
        if xn.Some? { return -1; }
        if yn.Some? { return 1; }
        return if StringLess(x, y) then -1 else 1;
      }
      i := i + 1;
    }
    return CmpInt(|xs|, |ys|);
  }

  // ---------------------------------------------------------------- the order

  /** An identifier that reads as a number is written as that number is. */
  predicate CanonicalId(id: string) { Atoi(id).Some? ==> id == Spell(Atoi(id).value) }
  predicate Canonical(v: Semver) { forall id :: id in Ids(v.pre) ==> CanonicalId(id) }

  lemma CompareIdSymmetric(x: string, y: string)
    requires x != y
    ensures CompareId(x, y) == -CompareId(y, x) && -1 <= CompareId(x, y) <= 1
  {
    StringLessTotal(x, y);
  }

  lemma {:induction false} CompareIdsSymmetric(xs: seq<string>, ys: seq<string>)
    ensures CompareIds(xs, ys) == -CompareIds(ys, xs) && -1 <= CompareIds(xs, ys) <= 1
    decreases |xs|
  {
    if xs != [] && ys != [] {
      if xs[0] == ys[0] { CompareIdsSymmetric(xs[1..], ys[1..]); } else { CompareIdSymmetric(xs[0], ys[0]); }
    }
  }

  lemma CompareSymmetric(v: Semver, o: Semver)
    ensures Compare(v, o) == -Compare(o, v) && Compare(v, o) in {-1, 0, 1} && Compare(v, v) == 0
  {
    CompareIdsSymmetric(Ids(v.pre), Ids(o.pre));
  }

  /** The first identifiers that differ are two numbers of the same value. */
  predicate TiedIds(xs: seq<string>, ys: seq<string>) {
    xs != [] && ys != [] &&
    if xs[0] == ys[0] then TiedIds(xs[1..], ys[1..]) else Atoi(xs[0]).Some? && Atoi(xs[0]) == Atoi(ys[0])
  }

  lemma {:induction false} IdsEqualOrTied(xs: seq<string>, ys: seq<string>)
    ensures CompareIds(xs, ys) == 0 <==> xs == ys || TiedIds(xs, ys)
    decreases |xs|
  {
    if xs != [] && ys != [] {
      if xs[0] == ys[0] {
        IdsEqualOrTied(xs[1..], ys[1..]);
        assert xs == [xs[0]] + xs[1..] && ys == [ys[0]] + ys[1..];
      }
    }
  }

  predicate SameCore(v: Semver, o: Semver) { v.major == o.major && v.minor == o.minor && v.patch == o.patch }

  /** compare says "equal" exactly for equal versions and for tied pre-releases. */
  lemma ZeroExactly(v: Semver, o: Semver)
    ensures Compare(v, o) == 0 <==>
            v == o || (SameCore(v, o) && v.pre != "" && o.pre != "" && TiedIds(Ids(v.pre), Ids(o.pre)))
  {
    IdsEqualOrTied(Ids(v.pre), Ids(o.pre));
    JoinSplit(v.pre, '.');
    JoinSplit(o.pre, '.');
  }

  lemma {:induction false} NoTies(xs: seq<string>, ys: seq<string>)
    requires (forall id :: id in xs ==> CanonicalId(id)) && (forall id :: id in ys ==> CanonicalId(id))
    ensures !TiedIds(xs, ys)
    decreases |xs|
  {
    if xs != [] && ys != [] && xs[0] == ys[0] {
      NoTies(xs[1..], ys[1..]);
    } else if xs != [] && ys != [] {
      assert CanonicalId(xs[0]) && CanonicalId(ys[0]);
    }
  }

  lemma CompareIdTransitive(x: string, y: string, z: string)
    requires CanonicalId(x) && CanonicalId(y) && CanonicalId(z) && x != y && y != z
    requires CompareId(x, y) <= 0 && CompareId(y, z) <= 0
    ensures x != z && CompareId(x, z) < 0
  {
    StringLessTotal(x, y);
    StringLessTotal(y, z);
    if Atoi(x).None? && Atoi(y).None? && Atoi(z).None? { StringLessTransitive(x, y, z); }
    StringLessTotal(x, z);
  }

  lemma {:induction false} CompareIdsTransitive(xs: seq<string>, ys: seq<string>, zs: seq<string>)
    requires forall id :: id in xs || id in ys || id in zs ==> CanonicalId(id)
    requires CompareIds(xs, ys) <= 0 && CompareIds(ys, zs) <= 0
    ensures CompareIds(xs, zs) <= 0
    decreases |xs|
  {
    if xs != [] && ys != [] && zs != [] {
      var x, y, z := xs[0], ys[0], zs[0];
      assert CanonicalId(x) && CanonicalId(y) && CanonicalId(z);
      if x == y == z {
        CompareIdsTransitive(xs[1..], ys[1..], zs[1..]);
      } else if x != y && y != z {
        CompareIdTransitive(x, y, z);
      }
    }
  }

  /** On versions with canonical numeric identifiers, compare is a total order. */
  lemma TotalOrder(u: Semver, v: Semver, w: Semver)
    requires Canonical(u) && Canonical(v) && Canonical(w)
    ensures Compare(u, v) == -Compare(v, u)
    ensures Compare(u, v) == 0 <==> u == v
    ensures Compare(u, v) <= 0 && Compare(v, w) <= 0 ==> Compare(u, w) <= 0
  {
    CompareSymmetric(u, v);
    NoTies(Ids(u.pre), Ids(v.pre));
    ZeroExactly(u, v);
    if Compare(u, v) <= 0 && Compare(v, w) <= 0 && SameCore(u, v) && SameCore(v, w) && u.pre != "" && v.pre != "" && w.pre != "" {
      CompareIdsTransitiveIncludingEqual(u, v, w);
    }
  }

  lemma CompareIdsTransitiveIncludingEqual(u: Semver, v: Semver, w: Semver)
    requires Canonical(u) && Canonical(v) && Canonical(w) && SameCore(u, v) && SameCore(v, w)
    requires u.pre != "" && v.pre != "" && w.pre != "" && Compare(u, v) <= 0 && Compare(v, w) <= 0
    ensures Compare(u, w) <= 0
  {
    CompareIdsSymmetric(Ids(u.pre), Ids(u.pre));
    CompareIdsSymmetric(Ids(v.pre), Ids(v.pre));
    CompareIdsTransitive(Ids(u.pre), Ids(v.pre), Ids(w.pre));
  }

  lemma {:induction false} IdsStrictlyTransitive(xs: seq<string>, ys: seq<string>, zs: seq<string>)
    requires CompareIds(xs, ys) < 0 && CompareIds(ys, zs) < 0
    ensures CompareIds(xs, zs) < 0
    decreases |xs|
  {
    if xs != [] && ys != [] && zs != [] {
      var x, y, z := xs[0], ys[0], zs[0];
      if x == y == z {
        IdsStrictlyTransitive(xs[1..], ys[1..], zs[1..]);
      } else if x != y && y != z {
        StringLessTotal(x, y);
        StringLessTotal(y, z);
        if Atoi(x).None? && Atoi(y).None? && Atoi(z).None? { StringLessTransitive(x, y, z); }
      }
    }
  }

  /** "Strictly below" is transitive for all versions. */
  lemma StrictlyTransitive(u: Semver, v: Semver, w: Semver)
    requires Compare(u, v) < 0 && Compare(v, w) < 0
    ensures Compare(u, w) < 0
  {
    CompareSymmetric(u, v);
    if SameCore(u, v) && SameCore(v, w) && u.pre != "" && v.pre != "" && w.pre != "" {
      IdsStrictlyTransitive(Ids(u.pre), Ids(v.pre), Ids(w.pre));
      CompareIdsSymmetric(Ids(u.pre), Ids(u.pre));
    }
  }

  /** 1.0.0-1.b against 1.0.0-01.a is a tie that hides what follows, so 1.b <= 01.a <= 1.a, but 1.a < 1.b. */
  lemma TiesBreakTransitivity()
    ensures Compare(OfTwo("1", "b"), OfTwo("01", "a")) == 0
    ensures Compare(OfTwo("01", "a"), OfTwo("1", "a")) == 0
    ensures Compare(OfTwo("1", "b"), OfTwo("1", "a")) > 0
  {
    AtoiOfOne();
    AtoiOfLetter('a');
    AtoiOfLetter('b');
    CompareTwo("1", "b", "01", "a");
    CompareTwo("01", "a", "1", "a");
    CompareTwo("1", "b", "1", "a");
  }

  /** 1.0.0 with a pre-release of two identifiers. */
  function OfTwo(x: string, y: string): Semver { Semver(1, 0, 0, x + "." + y) }

  lemma CompareTwo(x: string, y: string, x': string, y': string)
    requires '.' !in x && '.' !in y && '.' !in x' && '.' !in y' && (x, y) != (x', y')
    ensures Compare(OfTwo(x, y), OfTwo(x', y')) ==
            if x != x' then CompareId(x, x') else CompareId(y, y')
  {
    IdsOfTwo(x, y);
    IdsOfTwo(x', y');
    var xs, ys := [x, y], [x', y'];
    assert xs[1..] == [y] && ys[1..] == [y'];
    assert x + "." + y != x' + "." + y' by { assert xs[0] != ys[0] || xs[1] != ys[1]; }
    if x == x' { assert CompareIds(xs[1..], ys[1..]) == CompareId(y, y'); }
  }

  lemma IdsOfTwo(x: string, y: string)
    requires '.' !in x && '.' !in y
    ensures Ids(x + "." + y) == [x, y]
  {
    var parts := [x, y];
    assert parts[1..] == [y];
    SplitJoin(parts, '.');
    assert Join(parts, '.') == x + ['.'] + y;
  }

  lemma AtoiOfLetter(c: char)
    requires 'a' <= c <= 'z'
    ensures Atoi([c]) == None
  {
    assert [c][0] == c && c in [c];
  }

  // ---------------------------------------------------------------- where the order fails

  /** Two versions that compare does not tell apart. */
  predicate Tied(u: Semver, v: Semver) { u != v && Compare(u, v) == 0 }

  /** Transitive between versions of which no two tie. */
  lemma UntiedTransitive(u: Semver, v: Semver, w: Semver)
    requires !Tied(u, v) && !Tied(v, w) && Compare(u, v) <= 0 && Compare(v, w) <= 0
    ensures Compare(u, w) <= 0
  {
    CompareSymmetric(u, v);
    CompareSymmetric(v, w);
    CompareSymmetric(u, u);
    if Compare(u, v) < 0 && Compare(v, w) < 0 { StrictlyTransitive(u, v, w); }
  }

  ghost predicate TotallyOrdered(vs: set<Semver>) {
    && (forall u, v :: u in vs && v in vs && Compare(u, v) == 0 ==> u == v)
    && (forall u, v :: u in vs && v in vs ==> Compare(u, v) <= 0 || Compare(v, u) <= 0)
    && (forall u, v, w :: u in vs && v in vs && w in vs && Compare(u, v) <= 0 && Compare(v, w) <= 0 ==> Compare(u, w) <= 0)
  }

  /** compare orders a set of versions totally if and only if no two of them have pre-releases
      that tie. */
  lemma OrderedExactly(vs: set<Semver>)
    ensures TotallyOrdered(vs) <==>
            forall u, v :: u in vs && v in vs && SameCore(u, v) && u.pre != "" && v.pre != "" ==>
              !TiedIds(Ids(u.pre), Ids(v.pre))
  {
    if forall u, v :: u in vs && v in vs && SameCore(u, v) && u.pre != "" && v.pre != "" ==> !TiedIds(Ids(u.pre), Ids(v.pre)) {
      forall u, v | u in vs && v in vs ensures !Tied(u, v) && (Compare(u, v) <= 0 || Compare(v, u) <= 0) {
        ZeroExactly(u, v);
        CompareSymmetric(u, v);
      }
      forall u, v, w | u in vs && v in vs && w in vs && Compare(u, v) <= 0 && Compare(v, w) <= 0 ensures Compare(u, w) <= 0 {
        UntiedTransitive(u, v, w);
      }
    } else {
      var u, v :| u in vs && v in vs && SameCore(u, v) && u.pre != "" && v.pre != "" && TiedIds(Ids(u.pre), Ids(v.pre));
      ZeroExactly(u, v);
      TiedDiffer(Ids(u.pre), Ids(v.pre));
    }
  }

  lemma {:induction false} TiedDiffer(xs: seq<string>, ys: seq<string>)
    requires TiedIds(xs, ys)
    ensures xs != ys
    decreases |xs|
  {
    if xs[0] == ys[0] { TiedDiffer(xs[1..], ys[1..]); }
  }

  /** Behind a common start, the rest decides. */
  lemma {:induction false} CompareBehind(start: seq<string>, xs: seq<string>, ys: seq<string>)
    ensures CompareIds(start + xs, start + ys) == CompareIds(xs, ys)
    decreases |start|
  {
    if start == [] {
      assert start + xs == xs && start + ys == ys;
    } else {
      assert (start + xs)[1..] == start[1..] + xs && (start + ys)[1..] == start[1..] + ys;
      CompareBehind(start[1..], xs, ys);
      if xs == [] || ys == [] { CompareStart(start, xs, ys); }
    }
  }

  lemma CompareStart(start: seq<string>, xs: seq<string>, ys: seq<string>)
    requires start != []
    ensures (start + xs)[0] == start[0] == (start + ys)[0]
  {
  }

  /** The first identifiers, and then n as it is spelled, and one identifier more. */
  function Beside(v: Semver, i: nat, n: int, last: string): Semver
    requires i <= |Ids(v.pre)|
  {
    v.(pre := Join(Ids(v.pre)[..i] + [Spell(n), last], '.'))
  }

  lemma BesideIds(v: Semver, i: nat, n: int, last: string)
    requires i < |Ids(v.pre)| && MIN_INT <= n <= MAX_INT && '.' !in last
    ensures Ids(Beside(v, i, n, last).pre) == Ids(v.pre)[..i] + [Spell(n), last]
  {
    AtoiOfSpell(n);
    var ids := Ids(v.pre)[..i] + [Spell(n), last];
    forall id | id in ids ensures '.' !in id {
      if id in Ids(v.pre)[..i] { assert id in Ids(v.pre); }
    }
    SplitJoin(ids, '.');
  }

  /** Identifier i of v is n in another spelling: v ties with both versions beside it. */
  lemma BesideTies(v: Semver, i: nat, n: int, last: string)
    requires v.pre != "" && i < |Ids(v.pre)| && Atoi(Ids(v.pre)[i]) == Some(n) && Ids(v.pre)[i] != Spell(n) && '.' !in last
    requires MIN_INT <= n <= MAX_INT
    ensures Compare(v, Beside(v, i, n, last)) == 0 && Compare(Beside(v, i, n, last), v) == 0
  {
    var u, start, rest := Beside(v, i, n, last), Ids(v.pre)[..i], Ids(v.pre)[i..];
    BesideIds(v, i, n, last);
    AtoiOfSpell(n);
    assert Ids(v.pre) == start + rest;
    CompareBehind(start, rest, [Spell(n), last]);
    CompareBehind(start, [Spell(n), last], rest);
    NotEmpty(u);
  }

  lemma NotEmpty(v: Semver)
    requires |Ids(v.pre)| > 1
    ensures v.pre != ""
  {
  }

  /** The two versions beside v, in the wrong order. */
  lemma BesideFalls(v: Semver, i: nat, n: int)
    requires v.pre != "" && i < |Ids(v.pre)| && MIN_INT <= n <= MAX_INT
    ensures Compare(Beside(v, i, n, "b"), Beside(v, i, n, "a")) > 0
  {
    var u, w := Beside(v, i, n, "b"), Beside(v, i, n, "a");
    BesideIds(v, i, n, "b");
    BesideIds(v, i, n, "a");
    NotEmpty(u);
    NotEmpty(w);
    AtoiOfLetter('a');
    AtoiOfLetter('b');
    var xs, ys := [Spell(n), "b"], [Spell(n), "a"];
    CompareBehind(Ids(v.pre)[..i], xs, ys);
    assert xs[1..] == ["b"] && ys[1..] == ["a"];
    assert Ids(u.pre)[i + 1] == "b" && Ids(w.pre)[i + 1] == "a";
    assert CompareIds(xs, ys) == CompareIds(["b"], ["a"]) == CompareId("b", "a") == 1;
  }

  lemma BesideIsCanonical(v: Semver, i: nat, n: int, c: char)
    requires i < |Ids(v.pre)| && MIN_INT <= n <= MAX_INT && 'a' <= c <= 'z'
    requires forall k :: 0 <= k < i ==> CanonicalId(Ids(v.pre)[k])
    ensures Canonical(Beside(v, i, n, [c]))
  {
    BesideIds(v, i, n, [c]);
    AtoiOfLetter(c);
    AtoiOfSpell(n);
    var ids := Ids(v.pre)[..i] + [Spell(n), [c]];
    forall id | id in ids ensures CanonicalId(id) {
      if id in Ids(v.pre)[..i] { var k :| 0 <= k < i && Ids(v.pre)[k] == id; }
    }
  }

  /** v stands between canonical versions as an order asks. */
  ghost predicate FitsBetween(v: Semver) {
    forall u, w :: Canonical(u) && Canonical(w) && Compare(u, v) <= 0 && Compare(v, w) <= 0 ==> Compare(u, w) <= 0
  }

  lemma {:induction false} FirstOdd(ids: seq<string>, from: nat) returns (i: nat)
    requires from <= |ids| && exists k :: from <= k < |ids| && !CanonicalId(ids[k])
    ensures from <= i < |ids| && !CanonicalId(ids[i]) && forall k :: from <= k < i ==> CanonicalId(ids[k])
    decreases |ids| - from
  {
    hide CanonicalId;
    if CanonicalId(ids[from]) { i := FirstOdd(ids, from + 1); } else { i := from; }
  }

  /** compare is transitive through v, between canonical versions, if and only if the numeric
      identifiers of v are written canonically. */
  lemma CanonicalExactly(v: Semver)
    requires v.pre != ""
    ensures Canonical(v) <==> FitsBetween(v)
  {
    if Canonical(v) {
      forall u, w | Canonical(u) && Canonical(w) && Compare(u, v) <= 0 && Compare(v, w) <= 0 ensures Compare(u, w) <= 0 {
        TotalOrder(u, v, w);
      }
    } else {
      var i := FirstOdd(Ids(v.pre), 0);
      var n := Atoi(Ids(v.pre)[i]).value;
      BesideTies(v, i, n, "b");
      BesideTies(v, i, n, "a");
      BesideIsCanonical(v, i, n, 'a');
      BesideIsCanonical(v, i, n, 'b');
      BesideFalls(v, i, n);
    }
  }

  lemma AtoiOfOne()
    ensures Atoi("1") == Some(1) && Atoi("01") == Some(1)
  {
    assert "01"[..1] == "0" && "01"[..1][..0] == "" && "1"[..0] == "";
    assert DigitsValue("0") == 0 && DigitsValue("1") == 1;
    assert DigitsValue("01") == 1;
  }

  // ---------------------------------------------------------------- Semantic Versioning 2.0.0

  /** Section 11.4: identifiers of digits only compare as numbers, others as text, and a
      number is below a text. */
  predicate IsNumber(id: string) { id != "" && AllDigits(id) }

  predicate IdPrecedes(x: string, y: string) {
    if IsNumber(x) && IsNumber(y) then DigitsValue(x) < DigitsValue(y)
    else if IsNumber(x) || IsNumber(y) then IsNumber(x)
    else StringLess(x, y)
  }

  /** Section 11.4: the first difference decides, or a shorter list that is a prefix. */
  ghost predicate IdsPrecede(xs: seq<string>, ys: seq<string>) {
    || xs < ys
    || exists k :: 0 <= k < |xs| && k < |ys| && xs[..k] == ys[..k] && xs[k] != ys[k] && IdPrecedes(xs[k], ys[k])
  }

  /** Section 11: core first; a pre-release is below its release. */
  ghost predicate Precedes(v: Semver, o: Semver) {
    || v.major < o.major
    || (v.major == o.major && v.minor < o.minor)
    || (v.major == o.major && v.minor == o.minor && v.patch < o.patch)
    || (SameCore(v, o) && v.pre != "" && (o.pre == "" || IdsPrecede(Ids(v.pre), Ids(o.pre))))
  }

  /** Atoi takes the identifier for a number exactly when it is one. */
  predicate ReadRight(id: string) { Atoi(id).Some? <==> IsNumber(id) }

  lemma AtoiOfNumber(id: string)
    requires IsNumber(id)
    ensures Atoi(id) == if DigitsValue(id) <= MAX_INT then Some(DigitsValue(id)) else None
  {
    assert id[0] in id;
  }

  lemma IdOrderWhenReadRight(x: string, y: string)
    requires ReadRight(x) && ReadRight(y) && x != y
    ensures CompareId(x, y) < 0 <==> IdPrecedes(x, y)
  {
    if IsNumber(x) { AtoiOfNumber(x); }
    if IsNumber(y) { AtoiOfNumber(y); }
  }

  /** An identifier is ordered as section 11 says against every identifier that is read right
      exactly when it is read right itself: not `-5`, and no number beyond 64 bits. */
  lemma IdOrderExactly(x: string)
    ensures ReadRight(x) <==>
            forall y :: ReadRight(y) && y != x ==>
              (CompareId(x, y) < 0 <==> IdPrecedes(x, y)) && (CompareId(y, x) < 0 <==> IdPrecedes(y, x))
  {
    if ReadRight(x) {
      forall y | ReadRight(y) && y != x
        ensures (CompareId(x, y) < 0 <==> IdPrecedes(x, y)) && (CompareId(y, x) < 0 <==> IdPrecedes(y, x))
      {
        IdOrderWhenReadRight(x, y);
        IdOrderWhenReadRight(y, x);
      }
    } else if Atoi(x).Some? {
      // a signed number is a text for section 11, above every number
      var y := Spell(MAX_INT);
      AtoiOfSpell(MAX_INT);
      DecIsDigits(MAX_INT);
      assert ReadRight(y) && y != x && IdPrecedes(y, x) && CompareId(y, x) >= 0;
    } else {
      // a number too large for Atoi is a text for the code
      var y := "-";
      assert x[0] in x && y[1..] == "" && y[0] in y;
      assert Atoi(y) == None;
      assert ReadRight(y) && y != x && IdPrecedes(x, y) && CompareId(x, y) >= 0;
    }
  }

  lemma {:induction false} IdsOrderWhenReadRight(xs: seq<string>, ys: seq<string>)
    requires forall id :: id in xs || id in ys ==> ReadRight(id)
    ensures CompareIds(xs, ys) < 0 <==> IdsPrecede(xs, ys)
    decreases |xs|
  {
    if xs == [] || ys == [] {
    } else if xs[0] == ys[0] {
      IdsOrderWhenReadRight(xs[1..], ys[1..]);
      IdsPrecedeBehind(xs, ys);
    } else {
      IdOrderWhenReadRight(xs[0], ys[0]);
      if IdPrecedes(xs[0], ys[0]) { assert xs[..0] == ys[..0]; }
      if IdsPrecede(xs, ys) {
        var k :| 0 <= k < |xs| && k < |ys| && xs[..k] == ys[..k] && xs[k] != ys[k] && IdPrecedes(xs[k], ys[k]);
        if k > 0 { assert xs[..k][0] == ys[..k][0]; }
      }
    }
  }

  lemma IdsPrecedeBehind(xs: seq<string>, ys: seq<string>)
    requires xs != [] && ys != [] && xs[0] == ys[0]
    ensures IdsPrecede(xs, ys) <==> IdsPrecede(xs[1..], ys[1..])
  {
    hide IdPrecedes;
    var xt, yt := xs[1..], ys[1..];
    assert xs == [xs[0]] + xt && ys == [ys[0]] + yt;
    if IdsPrecede(xs, ys) && !(xs < ys) {
      var k :| 0 <= k < |xs| && k < |ys| && xs[..k] == ys[..k] && xs[k] != ys[k] && IdPrecedes(xs[k], ys[k]);
      assert xt[..k - 1] == xs[..k][1..] == ys[..k][1..] == yt[..k - 1];
      assert xt[k - 1] != yt[k - 1] && IdPrecedes(xt[k - 1], yt[k - 1]);
    }
    if IdsPrecede(xt, yt) && !(xt < yt) {
      var k :| 0 <= k < |xt| && k < |yt| && xt[..k] == yt[..k] && xt[k] != yt[k] && IdPrecedes(xt[k], yt[k]);
      assert xs[..k + 1] == [xs[0]] + xt[..k] == [ys[0]] + yt[..k] == ys[..k + 1];
      assert xs[k + 1] != ys[k + 1] && IdPrecedes(xs[k + 1], ys[k + 1]);
    }
  }

  /** Where every identifier is read right, compare is precedence as section 11 defines it. */
  lemma ComparesAsSection11(v: Semver, o: Semver)
    requires forall id :: id in Ids(v.pre) || id in Ids(o.pre) ==> ReadRight(id)
    ensures Compare(v, o) < 0 <==> Precedes(v, o)
  {
    IdsOrderWhenReadRight(Ids(v.pre), Ids(o.pre));
    CompareIdsSymmetric(Ids(v.pre), Ids(v.pre));
  }
}
