/** Go's strings and strconv functions, as far as the resolver, the lockfile and the lexer use them. */
module Strings {
  import opened Wrappers

  // ---------------------------------------------------------------- searching and splitting

  /** strings.IndexByte, |s| when the byte is absent. */
  function IndexOf(s: string, c: char): (i: nat)
    ensures i <= |s| && c !in s[..i] && (i < |s| ==> s[i] == c) && (i == |s| <==> c !in s)
  {
    if s == "" || s[0] == c then 0 else IndexOf(s[1..], c) + 1
  }

  lemma {:induction false} IndexOfAt(before: string, c: char, after: string)
    requires c !in before
    ensures IndexOf(before + [c] + after, c) == |before|
    decreases |before|
  {
    var s := before + [c] + after;
    if before != "" {
      assert s[1..] == before[1..] + [c] + after;
      IndexOfAt(before[1..], c, after);
    }
  }

  /** strings.Split on a one-byte separator. */
  function Split(s: string, c: char): (parts: seq<string>)
    ensures parts != [] && forall p :: p in parts ==> c !in p
    decreases |s|
  {
    var i := IndexOf(s, c);
    if i == |s| then [s] else [s[..i]] + Split(s[i + 1..], c)
  }

  /** strings.Join. */
  function Join(parts: seq<string>, c: char): string {
    if parts == [] then "" else if |parts| == 1 then parts[0] else parts[0] + [c] + Join(parts[1..], c)
  }

  lemma {:induction false} JoinSplit(s: string, c: char)
    ensures Join(Split(s, c), c) == s
    decreases |s|
  {
    hide IndexOf;
    var i := IndexOf(s, c);
    if i < |s| {
      JoinSplit(s[i + 1..], c);
      assert Split(s, c)[1..] == Split(s[i + 1..], c);
      assert s == s[..i] + [c] + s[i + 1..];
    }
  }

  lemma {:induction false} SplitJoin(parts: seq<string>, c: char)
    requires parts != [] && forall p :: p in parts ==> c !in p
    ensures Split(Join(parts, c), c) == parts
    decreases |parts|
  {
    hide IndexOf;
    if |parts| > 1 {
      var rest := Join(parts[1..], c);
      SplitJoin(parts[1..], c);
      IndexOfAt(parts[0], c, rest);
      var s := parts[0] + [c] + rest;
      assert s[..|parts[0]|] == parts[0] && s[|parts[0]| + 1..] == rest;
      assert parts == [parts[0]] + parts[1..];
    }
  }

  predicate HasPrefix(s: string, p: string) { |p| <= |s| && s[..|p|] == p }
  predicate HasSuffix(s: string, p: string) { |p| <= |s| && s[|s| - |p|..] == p }

  /** unicode.IsSpace. */
  predicate IsSpace(c: char) {
    c in " \t\n\r\U{0B}\U{0C}\U{85}\U{A0}\U{1680}\U{2028}\U{2029}\U{202F}\U{205F}\U{3000}" || '\U{2000}' <= c <= '\U{200A}'
  }

  /** The code points Unicode calls White_Space. */
  lemma SpacesExactly(c: char)
    ensures var n := c as int;
            IsSpace(c) <==> 9 <= n <= 13 || n == 32 || n == 133 || n == 160 || n == 5760 || 8192 <= n <= 8202
                            || n in {8232, 8233, 8239, 8287, 12288}
  {
  }

  function TrimLeft(s: string): string { if s != "" && IsSpace(s[0]) then TrimLeft(s[1..]) else s }
  function TrimRight(s: string): string
    decreases |s|
  {
    if s != "" && IsSpace(s[|s| - 1]) then TrimRight(s[..|s| - 1]) else s
  }
  /** strings.TrimSpace. */
  function TrimSpace(s: string): string { TrimRight(TrimLeft(s)) }

  lemma TrimSpaceOfTrimmed(s: string)
    requires s == "" || (!IsSpace(s[0]) && !IsSpace(s[|s| - 1]))
    ensures TrimSpace(s) == s
  {
  }

  // ---------------------------------------------------------------- surrounding space

  predicate AllSpace(s: string) { forall c :: c in s ==> IsSpace(c) }

  /** Not empty, and no space at either end. */
  predicate Solid(s: string) { s != "" && !IsSpace(s[0]) && !IsSpace(s[|s| - 1]) }

  lemma {:induction false} TrimsLeft(lead: string, s: string)
    requires AllSpace(lead) && (s == "" || !IsSpace(s[0]))
    ensures TrimLeft(lead + s) == s
    decreases |lead|
  {
    hide IsSpace;
    if lead == "" {
      assert lead + s == s;
    } else {
      assert lead[0] in lead && (lead + s)[1..] == lead[1..] + s;
      TrimsLeft(lead[1..], s);
    }
  }

  lemma {:induction false} TrimsRight(s: string, trail: string)
    requires AllSpace(trail) && (s == "" || !IsSpace(s[|s| - 1]))
    ensures TrimRight(s + trail) == s
    decreases |trail|
  {
    hide IsSpace;
    if trail == "" {
      assert s + trail == s;
    } else {
      var n := |trail| - 1;
      assert trail[n] in trail && (s + trail)[..|s + trail| - 1] == s + trail[..n];
      TrimsRight(s, trail[..n]);
    }
  }

  /** Space around a text that has none at its ends is what TrimSpace takes off. */
  lemma TrimsPadding(lead: string, s: string, trail: string)
    requires AllSpace(lead) && AllSpace(trail) && Solid(s)
    ensures TrimSpace(lead + s + trail) == s
  {
    hide IsSpace, TrimLeft, TrimRight;
    assert lead + s + trail == lead + (s + trail);
    TrimsLeft(lead, s + trail);
    TrimsRight(s, trail);
  }

  lemma TrimsBlank(s: string)
    requires AllSpace(s)
    ensures TrimSpace(s) == ""
  {
    TrimsLeft(s, "");
    assert s + "" == s;
  }

  lemma {:induction false} LeftPadding(s: string) returns (lead: string)
    ensures AllSpace(lead) && s == lead + TrimLeft(s) && (TrimLeft(s) == "" || !IsSpace(TrimLeft(s)[0]))
    decreases |s|
  {
    hide IsSpace;
    lead := "";
    if s != "" && IsSpace(s[0]) {
      var more := LeftPadding(s[1..]);
      lead := [s[0]] + more;
    }
  }

  lemma {:induction false} RightPadding(s: string) returns (trail: string)
    ensures AllSpace(trail) && s == TrimRight(s) + trail
    ensures TrimRight(s) == "" || !IsSpace(TrimRight(s)[|TrimRight(s)| - 1])
    decreases |s|
  {
    hide IsSpace;
    trail := "";
    if s != "" && IsSpace(s[|s| - 1]) {
      var more := RightPadding(s[..|s| - 1]);
      trail := more + [s[|s| - 1]];
      assert s == s[..|s| - 1] + [s[|s| - 1]];
    }
  }

  lemma Padding(s: string) returns (lead: string, trail: string)
    ensures AllSpace(lead) && AllSpace(trail) && s == lead + TrimSpace(s) + trail
    ensures TrimSpace(s) == "" || Solid(TrimSpace(s))
  {
    hide IsSpace, TrimLeft, TrimRight;
    lead := LeftPadding(s);
    trail := RightPadding(TrimLeft(s));
    var core := TrimSpace(s);
    assert TrimLeft(s) == core + trail;
    if core != "" { assert core[0] == TrimLeft(s)[0]; }
  }

  lemma EndsInSpace(s: string, trail: string)
    requires AllSpace(trail)
    ensures trail == "" || IsSpace((s + trail)[|s + trail| - 1])
  {
    if trail != "" { assert trail[|trail| - 1] in trail; }
  }

  lemma StartsInSpace(lead: string, s: string)
    requires AllSpace(lead)
    ensures lead == "" || IsSpace((lead + s)[0])
  {
    if lead != "" { assert lead[0] in lead; }
  }

  // ---------------------------------------------------------------- order

  /** Go's `<` on strings. */
  predicate StringLess(x: string, y: string) {
    y != "" && (x == "" || (if x[0] == y[0] then StringLess(x[1..], y[1..]) else x[0] < y[0]))
  }

  /** The first difference decides, or a proper prefix comes first. */
  ghost predicate ComesBefore(x: string, y: string) {
    x < y || exists k :: 0 <= k < |x| && k < |y| && x[..k] == y[..k] && x[k] < y[k]
  }

  lemma {:induction false} StringLessExactly(x: string, y: string)
    ensures StringLess(x, y) <==> ComesBefore(x, y)
    decreases |x|
  {
    if x != "" && y != "" {
      if x[0] == y[0] {
        StringLessExactly(x[1..], y[1..]);
        BehindTheFirst(x, y);
      } else if x[0] < y[0] {
        assert x[..0] == y[..0];
      } else if exists k :: 0 <= k < |x| && k < |y| && x[..k] == y[..k] && x[k] < y[k] {
        var k :| 0 <= k < |x| && k < |y| && x[..k] == y[..k] && x[k] < y[k];
        assert k > 0 ==> x[..k][0] == y[..k][0];
      }
    }
  }

  lemma BehindTheFirst(x: string, y: string)
    requires x != "" && y != "" && x[0] == y[0]
    ensures ComesBefore(x, y) <==> ComesBefore(x[1..], y[1..])
  {
    var s, t := x[1..], y[1..];
    assert x == [x[0]] + s && y == [y[0]] + t;
    if k :| 0 <= k < |x| && k < |y| && x[..k] == y[..k] && x[k] < y[k] {
      assert s[..k - 1] == x[..k][1..] == y[..k][1..] == t[..k - 1];
      assert s[k - 1] < t[k - 1];
    }
    if k :| 0 <= k < |s| && k < |t| && s[..k] == t[..k] && s[k] < t[k] {
      assert x[..k + 1] == [x[0]] + s[..k] == [y[0]] + t[..k] == y[..k + 1];
      assert x[k + 1] < y[k + 1];
    }
  }

  lemma {:induction false} StringLessTotal(x: string, y: string)
    ensures !(StringLess(x, y) && StringLess(y, x)) && (x != y ==> StringLess(x, y) || StringLess(y, x))
    ensures !StringLess(x, x)
    decreases |x| + |y|
  {
    if x != "" && y != "" && x[0] == y[0] {
      StringLessTotal(x[1..], y[1..]);
      assert x == [x[0]] + x[1..] && y == [y[0]] + y[1..];
    } else {
      StringLessIrreflexive(x);
    }
  }

  lemma {:induction false} StringLessIrreflexive(x: string)
    ensures !StringLess(x, x)
    decreases |x|
  {
    if x != "" { StringLessIrreflexive(x[1..]); }
  }

  lemma {:induction false} StringLessTransitive(x: string, y: string, z: string)
    requires StringLess(x, y) && StringLess(y, z)
    ensures StringLess(x, z)
    decreases |x|
  {
    if x != "" && x[0] == y[0] == z[0] { StringLessTransitive(x[1..], y[1..], z[1..]); }
  }

  // ---------------------------------------------------------------- numbers

  const MAX_INT: int := 0x7FFF_FFFF_FFFF_FFFF
  const MIN_INT: int := -MAX_INT - 1

  predicate IsDigit(c: char) { '0' <= c <= '9' }
  predicate AllDigits(s: string) { forall c :: c in s ==> IsDigit(c) }

  function DigitValue(c: char): nat requires IsDigit(c) { c as int - '0' as int }

  function DigitsValue(s: string): nat
    requires AllDigits(s)
    decreases |s|
  {
    if s == "" then 0 else 10 * DigitsValue(s[..|s| - 1]) + DigitValue(s[|s| - 1])
  }

  /** strconv.Atoi: an optional sign, decimal digits, and the range of a 64-bit int. */
  function Atoi(s: string): (r: Option<int>)
    ensures r.Some? ==> MIN_INT <= r.value <= MAX_INT
  {
    var signed := s != "" && s[0] in "+-";
    var digits := if signed then s[1..] else s;
    if digits == "" || !AllDigits(digits) then None else
    var v: int := DigitsValue(digits);
    var n := if signed && s[0] == '-' then -v else v;
    if MIN_INT <= n <= MAX_INT then Some(n) else None
  }

  /** fmt's %d. */
  function Dec(n: nat): string { (if n < 10 then "" else Dec(n / 10)) + [('0' as int + n % 10) as char] }
  function Spell(n: int): string { if n < 0 then "-" + Dec(-n) else Dec(n) }

  lemma {:induction false} DecIsDigits(n: nat)
    ensures Dec(n) != "" && AllDigits(Dec(n)) && DigitsValue(Dec(n)) == n
    decreases n
  {
    var d := ('0' as int + n % 10) as char;
    assert IsDigit(d);
    if n >= 10 {
      DecIsDigits(n / 10);
      assert Dec(n)[..|Dec(n)| - 1] == Dec(n / 10);
    } else {
      assert Dec(n) == [d];
      assert Dec(n)[..0] == "";
    }
  }

  lemma AtoiOfDigits(s: string)
    requires s != "" && AllDigits(s) && DigitsValue(s) <= MAX_INT
    ensures Atoi(s) == Some(DigitsValue(s))
  {
    assert s[0] in s;
  }

  lemma AtoiOfNegative(s: string)
    requires s != "" && AllDigits(s) && DigitsValue(s) <= MAX_INT + 1
    ensures Atoi("-" + s) == Some(0 - DigitsValue(s) as int)
  {
    assert ("-" + s)[1..] == s;
  }

  lemma AtoiOfSpell(n: int)
    requires MIN_INT <= n <= MAX_INT
    ensures Atoi(Spell(n)) == Some(n)
    ensures Spell(n) != "" && forall c :: c in Spell(n) ==> IsDigit(c) || c == '-'
  {
    hide DigitsValue, Dec;
    if n < 0 {
      DecIsDigits(-n);
      AtoiOfNegative(Dec(-n));
    } else {
      DecIsDigits(n);
      AtoiOfDigits(Dec(n));
    }
  }

  // ---------------------------------------------------------------- sorting

  predicate Ascending(xs: seq<string>) { forall i, j :: 0 <= i < j < |xs| ==> !StringLess(xs[j], xs[i]) }

  function Insert(x: string, xs: seq<string>): seq<string> {
    if xs == [] || !StringLess(xs[0], x) then [x] + xs else [xs[0]] + Insert(x, xs[1..])
  }

  /** sort.Strings. */
  function Sorted(xs: seq<string>): seq<string> { if xs == [] then [] else Insert(xs[0], Sorted(xs[1..])) }

  lemma {:induction false} InsertIsSorted(x: string, xs: seq<string>)
    requires Ascending(xs)
    ensures Ascending(Insert(x, xs)) && multiset(Insert(x, xs)) == multiset([x]) + multiset(xs)
    decreases |xs|
  {
    hide StringLess;
    if xs == [] || !StringLess(xs[0], x) {
      forall i | 0 <= i < |xs| ensures !StringLess(xs[i], x) {
        if StringLess(xs[i], x) && i > 0 {
          StringLessTotal(xs[0], xs[i]);
          if xs[0] != xs[i] { StringLessTransitive(xs[0], xs[i], x); }
        }
      }
    } else {
      InsertIsSorted(x, xs[1..]);
      assert xs == [xs[0]] + xs[1..];
      StringLessTotal(xs[0], x);
      forall y | y in Insert(x, xs[1..]) ensures !StringLess(y, xs[0]) {
        assert y in multiset([x]) + multiset(xs[1..]);
        if y != x {
          var k :| 0 <= k < |xs[1..]| && xs[1..][k] == y;
          assert xs[k + 1] == y;
        }
      }
    }
  }

  lemma {:induction false} SortedIsSorted(xs: seq<string>)
    ensures Ascending(Sorted(xs)) && multiset(Sorted(xs)) == multiset(xs)
    decreases |xs|
  {
    if xs != [] {
      SortedIsSorted(xs[1..]);
      InsertIsSorted(xs[0], Sorted(xs[1..]));
      assert xs == [xs[0]] + xs[1..];
    }
  }

  /** Sorted without repetition. */
  lemma SortedStrictly(xs: seq<string>)
    requires forall i, j :: 0 <= i < j < |xs| ==> xs[i] != xs[j]
    ensures forall i, j :: 0 <= i < j < |Sorted(xs)| ==> StringLess(Sorted(xs)[i], Sorted(xs)[j])
    ensures forall x :: x in Sorted(xs) <==> x in xs
  {
    var ys := Sorted(xs);
    SortedIsSorted(xs);
    forall x ensures x in ys <==> x in xs { assert x in multiset(ys) <==> x in multiset(xs); }
    forall i, j | 0 <= i < j < |ys| ensures StringLess(ys[i], ys[j]) {
      OnceEach(xs, ys[i]);
      if ys[i] == ys[j] { TwiceCounts(ys, i, j); }
      StringLessTotal(ys[i], ys[j]);
    }
  }

  lemma {:induction false} OnceEach(xs: seq<string>, x: string)
    requires forall i, j :: 0 <= i < j < |xs| ==> xs[i] != xs[j]
    ensures multiset(xs)[x] <= 1
    decreases |xs|
  {
    if xs != [] {
      OnceEach(xs[1..], x);
      assert xs == [xs[0]] + xs[1..];
      forall k | 0 <= k < |xs[1..]| ensures xs[1..][k] != xs[0] { assert xs[1..][k] == xs[k + 1]; }
    }
  }

  lemma TwiceCounts(xs: seq<string>, i: nat, j: nat)
    requires i < j < |xs| && xs[i] == xs[j]
    ensures multiset(xs)[xs[i]] >= 2
  {
    assert xs == xs[..j] + xs[j..];
    assert xs[..j][i] == xs[i] && xs[j..][0] == xs[j];
    assert xs[i] in multiset(xs[..j]) && xs[i] in multiset(xs[j..]);
  }
}
