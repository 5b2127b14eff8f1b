/** Constraint spellings (cmd/aril/version.go) and the raise of a floor (cmd/aril/upgrade.go). */
module Upgrade {
  import opened Wrappers
  import opened Strings
  import opened Versions
  import opened Constraints

  // ---------------------------------------------------------------- windows

  /** How far a floor floats: `^`, or `~` with or without a minor component. */
  datatype Range = Caret | Tilde(minorGiven: bool)

  /** A 64-bit `n + 1`. */
  function Inc(n: int): int { if n == MAX_INT then MIN_INT else n + 1 }

  /** The exclusive upper bound of caretConstraint and tildeConstraint. */
  function Ceiling(k: Range, lo: Semver): Semver {
    match k
    case Caret =>
      if lo.major > 0 then Semver(Inc(lo.major), 0, 0, "")
      else if lo.minor > 0 then Semver(0, Inc(lo.minor), 0, "")
      else Semver(0, 0, Inc(lo.patch), "")
    case Tilde(true) => Semver(lo.major, Inc(lo.minor), 0, "")
    case Tilde(false) => Semver(Inc(lo.major), 0, 0, "")
  }

  function Window(text: string, k: Range, lo: Semver): Constraint {
    Constraint(text, [Comparator(AtLeast, lo), Comparator(Below, Ceiling(k, lo))], "")
  }

  lemma WindowAdmits(text: string, k: Range, lo: Semver, v: Semver)
    ensures Admits(Window(text, k, lo), v) <==> Compare(v, lo) >= 0 && Compare(v, Ceiling(k, lo)) < 0
    ensures FloorOf(Window(text, k, lo).comps) == Some(lo)
  {
    var comps := Window(text, k, lo).comps;
    assert Holds(comps[0], v) <==> Compare(v, lo) >= 0;
    assert Holds(comps[1], v) <==> Compare(v, Ceiling(k, lo)) < 0;
    assert comps[..1] == [comps[0]] && comps[..1][..0] == [];
    assert FloorOf(comps[..1]) == Some(lo);
  }

  // ---------------------------------------------------------------- spellings

  predicate IsFullCommitSha(s: string) { |s| == 40 && forall c :: c in s ==> IsDigit(c) || 'a' <= c <= 'f' }

  /** bodyCore: without pre-release and build metadata. */
  function BodyCore(body: string): string { Before(Before(body, '-'), '+') }

  function ParseCaret(raw: string): Option<Constraint>
    requires raw != ""
  {
    match ParseCore(raw[1..]) case Some(lo) => Some(Window(raw, Caret, lo)) case None => None
  }

  function ParseTilde(raw: string): Option<Constraint>
    requires raw != ""
  {
    match ParseCore(raw[1..])
    case Some(lo) => Some(Window(raw, Tilde(|Split(BodyCore(raw[1..]), '.')| >= 2), lo))
    case None => None
  }

  function ParseWildcard(raw: string): Option<Constraint>
    requires |raw| >= 2
  {
    var stem := raw[..|raw| - 2];
    match ParseCore(stem) case Some(lo) => Some(Window(raw, Tilde('.' in stem), lo)) case None => None
  }

  /** One term of a compound constraint: the operator, and the operand without its `v`. */
  function ParseTerm(part: string): Option<Comparator> {
    var (op, rest) :=
      if HasPrefix(part, ">=") then (AtLeast, TrimSpace(part[2..]))
      else if HasPrefix(part, "<=") then (AtMost, TrimSpace(part[2..]))
      else if HasPrefix(part, ">") then (Above, TrimSpace(part[1..]))
      else if HasPrefix(part, "<") then (Below, TrimSpace(part[1..]))
      else if HasPrefix(part, "=") then (Exactly, TrimSpace(part[1..]))
      else (Exactly, part);
    match ParseCore(if HasPrefix(rest, "v") then rest[1..] else rest)
    case Some(v) => Some(Comparator(op, v))
    case None => None
  }

  function ParseTerms(parts: seq<string>): Option<seq<Comparator>> {
    if parts == [] then Some([]) else
    var part := TrimSpace(parts[0]);
    if part == "" then ParseTerms(parts[1..]) else
    match (ParseTerm(part), ParseTerms(parts[1..]))
    case (Some(cm), Some(cms)) => Some([cm] + cms)
    case _ => None
  }

  /** parseConstraint; None for a spelling it rejects. */
  function ParseConstraint(s: string): Option<Constraint> {
    var raw := TrimSpace(s);
    if raw == "" then None
    else if IsFullCommitSha(raw) then Some(Constraint(raw, [], raw))
    else if raw == "*" then Some(Constraint(raw, [], ""))
    else if HasPrefix(raw, "^") then ParseCaret(raw)
    else if HasPrefix(raw, "~") then ParseTilde(raw)
    else if HasSuffix(raw, ".*") then ParseWildcard(raw)
    else if '<' in raw || '>' in raw || ',' in raw then
      (match ParseTerms(Split(raw, ','))
       case Some(comps) => if comps == [] then None else Some(Constraint(raw, comps, ""))
       case None => None)
    else if HasPrefix(raw, "=") then
      (match Parse(TrimSpace(raw[1..])) case Some(v) => Some(Constraint(raw, [Comparator(Exactly, v)], "")) case None => None)
    else if HasPrefix(raw, "v") then
      (match Parse(raw) case Some(v) => Some(Constraint(raw, [Comparator(Exactly, v)], "")) case None => None)
    else None
  }

  // ---------------------------------------------------------------- the raise

  /** newFloorSpelling: a range has one floor to raise. */
  predicate Raisable(c: Constraint) { HasPrefix(c.text, "^") || HasPrefix(c.text, "~") }

  function Raised(c: Constraint, v: Semver): string
    requires Raisable(c)
  {
    c.text[..1] + Core(v)
  }

  /** A version read from a tag name, which holds no space. */
  predicate IsTag(v: Semver) { v.InRange() && '+' !in v.pre && forall c :: c in v.pre ==> !IsSpace(c) }

  function RangeOf(c: Constraint): Range
    requires Raisable(c)
  {
    if HasPrefix(c.text, "^") then Caret else Tilde(true)
  }

  lemma DigitIsSolid(c: char)
    requires IsDigit(c)
    ensures !IsSpace(c)
  {
  }

  lemma EndsAlike(a: string, b: string)
    requires b != ""
    ensures (a + b)[|a + b| - 1] == b[|b| - 1]
  {
  }

  lemma CoreEndsSolid(v: Semver)
    requires IsTag(v)
    ensures Core(v) != "" && !IsSpace(Core(v)[|Core(v)| - 1])
  {
    hide IsSpace, Dec;
    var p := Spell(v.patch);
    DecIsDigits(v.patch);
    if v.pre == "" {
      EndsAlike(Spell(v.major) + "." + Spell(v.minor) + ".", p);
      assert p[|p| - 1] in p;
      DigitIsSolid(p[|p| - 1]);
    } else {
      EndsAlike(Numbers(v), "-" + v.pre);
      EndsAlike("-", v.pre);
      assert v.pre[|v.pre| - 1] in v.pre;
    }
  }

  lemma CoreTrimmed(v: Semver, mark: char)
    requires IsTag(v) && !IsSpace(mark)
    ensures TrimSpace([mark] + Core(v)) == [mark] + Core(v)
  {
    hide Core, TrimSpace, IsSpace;
    CoreEndsSolid(v);
    var s := [mark] + Core(v);
    assert s[|s| - 1] == Core(v)[|Core(v)| - 1];
    TrimSpaceOfTrimmed(s);
  }

  lemma CoreHasThreeNumbers(v: Semver)
    requires IsTag(v)
    ensures |Split(BodyCore(Core(v)), '.')| == 3
  {
    NumbersHaveNo(v, '-');
    NumbersHaveNo(v, '+');
    NumbersSplit(v);
    if v.pre == "" {
      assert Core(v) == Numbers(v);
      NoMark(Core(v), '-');
    } else {
      assert Core(v) == Numbers(v) + ['-'] + v.pre;
      BeforeAndBehind(Numbers(v), '-', v.pre);
    }
    NoMark(Numbers(v), '+');
  }

  lemma ReadsRange(body: string, mark: char)
    requires mark in "^~" && TrimSpace([mark] + body) == [mark] + body
    ensures ParseConstraint([mark] + body) == if mark == '^' then ParseCaret([mark] + body) else ParseTilde([mark] + body)
  {
    hide ParseCaret, ParseTilde;
    var raw := [mark] + body;
    assert raw[0] == mark && raw[0] in raw && raw[..1] == [mark];
  }

  /** The raised spelling reads back as the window from v up. */
  lemma RaisedReadsBack(c: Constraint, v: Semver)
    requires Raisable(c) && IsTag(v)
    ensures ParseConstraint(Raised(c, v)) == Some(Window(Raised(c, v), RangeOf(c), v))
  {
    var mark := c.text[0];
    assert c.text[..1] == [mark] && mark in "^~";
    CoreTrimmed(v, mark);
    ReadsRange(Core(v), mark);
    ReadsWindow(v, mark);
  }

  lemma ReadsWindow(v: Semver, mark: char)
    requires IsTag(v)
    ensures ParseCaret([mark] + Core(v)) == Some(Window([mark] + Core(v), Caret, v))
    ensures ParseTilde([mark] + Core(v)) == Some(Window([mark] + Core(v), Tilde(true), v))
  {
    var body := Core(v);
    assert ([mark] + body)[1..] == body;
    ParsesCore(v);
    NoMark(v.pre, '+');
    CoreHasThreeNumbers(v);
  }

  /** Everything the window of the raised floor admits, the old window admitted. */
  ghost predicate Inside(k: Range, lo: Semver, k': Range, v: Semver) {
    forall w :: Canonical(w) && Compare(w, v) >= 0 && Compare(w, Ceiling(k', v)) < 0 ==>
                  Compare(w, lo) >= 0 && Compare(w, Ceiling(k, lo)) < 0
  }

  function Again(k: Range): Range { if k.Caret? then Caret else Tilde(true) }

  /** Off the ceiling, the new ceiling is no higher than the old one. */
  lemma CeilingKept(k: Range, lo: Semver, v: Semver)
    requires lo.InRange() && v.InRange() && Compare(v, lo) >= 0 && Compare(v, Ceiling(k, lo)) < 0
    ensures !SameCore(v, Ceiling(k, lo)) ==> Compare(Ceiling(Again(k), v), Ceiling(k, lo)) <= 0
    ensures SameCore(v, Ceiling(k, lo)) ==> v.pre != ""
    ensures SameCore(v, Ceiling(k, lo)) ==>
              Compare(v, Ceiling(Again(k), v)) >= 0 || Compare(Ceiling(k, lo), Ceiling(Again(k), v)) < 0
  {
  }

  /** The raised window lies inside the old one exactly when the tag chosen is not a pre-release
      of the old ceiling (or the new ceiling wraps around, and nothing is admitted). */
  lemma InsideExactly(k: Range, lo: Semver, v: Semver)
    requires lo.InRange() && v.InRange() && Canonical(lo) && Canonical(v)
    requires Compare(v, lo) >= 0 && Compare(v, Ceiling(k, lo)) < 0
    ensures Inside(k, lo, Again(k), v) <==>
            !SameCore(v, Ceiling(k, lo)) || Compare(v, Ceiling(Again(k), v)) >= 0
  {
    var hi, hi' := Ceiling(k, lo), Ceiling(Again(k), v);
    CeilingKept(k, lo, v);
    CanonicalRelease(hi);
    CanonicalRelease(hi');
    if !SameCore(v, hi) || Compare(v, hi') >= 0 {
      forall w | Canonical(w) && Compare(w, v) >= 0 && Compare(w, hi') < 0
        ensures Compare(w, lo) >= 0 && Compare(w, hi) < 0
      {
        TotalOrder(lo, v, w);
        CompareSymmetric(w, lo);
        CompareSymmetric(v, lo);
        CompareSymmetric(w, v);
        if Compare(v, hi') >= 0 {
          TotalOrder(hi', v, w);
          CompareSymmetric(hi', v);
          CompareSymmetric(w, hi');
        }
        TotalOrder(hi', hi, hi);
        if hi' != hi { StrictlyTransitive(w, hi', hi); }
      }
    } else {
      // the old ceiling itself is in the new window
      CompareSymmetric(v, hi);
      CompareSymmetric(hi, hi);
      assert Canonical(hi) && Compare(hi, v) >= 0 && Compare(hi, hi') < 0;
    }
  }

  lemma CanonicalRelease(v: Semver)
    requires v.pre == ""
    ensures Canonical(v)
  {
    assert Split("", '.') == [""];
  }

  /** A second upgrade finds no tag above the floor it would raise. */
  ghost predicate NothingToRaise(v: Semver, tags: seq<Semver>, c: Constraint) {
    forall w :: IsGreatest(w, tags, c) ==> Compare(w, v) <= 0
  }

  ghost predicate AlwaysIdempotent(k: Range, lo: Semver, v: Semver) {
    forall tags: seq<Semver> :: (forall t :: t in tags ==> Canonical(t)) && IsGreatest(v, tags, Window("", k, lo)) ==>
      NothingToRaise(v, tags, Window("", Again(k), v))
  }

  /** Upgrading twice is upgrading once, whatever the tags, exactly when the raised window
      lies inside the old one. */
  lemma IdempotentExactly(k: Range, lo: Semver, v: Semver)
    requires lo.InRange() && v.InRange() && Canonical(lo) && Canonical(v)
    requires Compare(v, lo) >= 0 && Compare(v, Ceiling(k, lo)) < 0
    ensures AlwaysIdempotent(k, lo, v) <==> Inside(k, lo, Again(k), v)
  {
    var old_, new_ := Window("", k, lo), Window("", Again(k), v);
    if Inside(k, lo, Again(k), v) {
      forall tags: seq<Semver> | (forall t :: t in tags ==> Canonical(t)) && IsGreatest(v, tags, old_)
        ensures NothingToRaise(v, tags, new_)
      {
        forall w | IsGreatest(w, tags, new_) ensures Compare(w, v) <= 0 {
          WindowAdmits("", Again(k), v, w);
          WindowAdmits("", k, lo, w);
          CompareSymmetric(v, w);
        }
      }
    } else {
      InsideExactly(k, lo, v);
      EscapingTags(k, lo, v);
    }
  }

  /** The tag list that shows it: the chosen tag and the old ceiling. */
  lemma EscapingTags(k: Range, lo: Semver, v: Semver)
    requires lo.InRange() && v.InRange() && Canonical(lo) && Canonical(v)
    requires Compare(v, lo) >= 0 && Compare(v, Ceiling(k, lo)) < 0
    requires SameCore(v, Ceiling(k, lo)) && Compare(v, Ceiling(Again(k), v)) < 0
    ensures !AlwaysIdempotent(k, lo, v)
  {
    var hi := Ceiling(k, lo);
    var tags := [v, hi];
    CeilingKept(k, lo, v);
    CanonicalRelease(hi);
    CompareSymmetric(v, hi);
    CompareSymmetric(hi, hi);
    CompareSymmetric(v, v);
    WindowAdmits("", k, lo, v);
    WindowAdmits("", k, lo, hi);
    WindowAdmits("", Again(k), v, hi);
    WindowAdmits("", Again(k), v, v);
    assert IsGreatest(v, tags, Window("", k, lo));
    assert IsGreatest(hi, tags, Window("", Again(k), v));
    assert !NothingToRaise(v, tags, Window("", Again(k), v));
  }

  /** A dependency asks for `version`, v is the highest tag it admits, and r is written instead. */
  predicate Rewrites(version: string, tags: seq<Semver>, v: Semver, r: string) {
    var c := ParseConstraint(version);
    && c.Some? && Raisable(c.value) && IsGreatest(v, tags, c.value)
    && (FloorOf(c.value.comps).Some? ==> Compare(v, FloorOf(c.value.comps).value) > 0)
    && r == Raised(c.value, v) && r != version
  }

  /** cmdUpgrade, for one dependency: the new spelling, or None when nothing changes. */
  method UpgradeDep(version: string, tags: seq<Semver>) returns (r: Option<string>)
    requires forall t :: t in tags ==> IsTag(t)
    ensures r.Some? ==> exists v :: v in tags && Rewrites(version, tags, v, r.value)
                                    && ParseConstraint(r.value) ==
                                       Some(Window(r.value, RangeOf(ParseConstraint(version).value), v))
    ensures var c := ParseConstraint(version);
            && r.None? && c.Some? && (HasPrefix(c.value.text, "^") || HasPrefix(c.value.text, "~"))
            && (exists v :: v in tags && Admits(c.value, v)) ==>
              exists v :: IsGreatest(v, tags, c.value)
                          && (Raised(c.value, v) == version
                              || (FloorOf(c.value.comps).Some? && Compare(v, FloorOf(c.value.comps).value) <= 0))
  {
    hide ParseConstraint;
    var c := ParseConstraint(version);
    if c.None? || !Raisable(c.value) { return None; }
    var highest := HighestSatisfying(tags, c.value);
    if highest.None? { return None; }
    var floor := Floor(c.value);
    if floor.Some? && Compare(highest.value, floor.value) <= 0 { return None; }
    var raised := Raised(c.value, highest.value);
    if raised == version { return None; }
    RaisedReadsBack(c.value, highest.value);
    assert Rewrites(version, tags, highest.value, raised);
    return Some(raised);
  }

  /** What a raisable spelling reads as. */
  lemma RaisableIsWindow(version: string) returns (k: Range, lo: Semver)
    requires ParseConstraint(version).Some? && Raisable(ParseConstraint(version).value)
    ensures var c := ParseConstraint(version).value;
            c == Window(c.text, k, lo) && RangeOf(c) == Again(k) && lo.InRange()
  {
    hide ParseCore, BodyCore, Ceiling, TrimSpace;
    var raw := TrimSpace(version);
    k, lo := Caret, Semver(0, 0, 0, "");
    assert raw != "" && raw[0] in raw;
    if HasPrefix(raw, "^") {
      assert raw[0] == "^"[0];
      lo := ParseCore(raw[1..]).value;
    } else if HasPrefix(raw, "~") {
      assert raw[0] == "~"[0];
      k, lo := Tilde(|Split(BodyCore(raw[1..]), '.')| >= 2), ParseCore(raw[1..]).value;
    }
  }

  lemma SameGreatest(w: Semver, tags: seq<Semver>, text: string, k: Range, lo: Semver)
    ensures IsGreatest(w, tags, Window(text, k, lo)) <==> IsGreatest(w, tags, Window("", k, lo))
  {
    forall v ensures Admits(Window(text, k, lo), v) <==> Admits(Window("", k, lo), v) {}
  }

  /** Upgrading what an upgrade wrote changes nothing, when the raised window lies inside the old one. */
  lemma UpgradesOnce(version: string, tags: seq<Semver>, v: Semver, r: string) returns (k: Range, lo: Semver)
    requires forall t :: t in tags ==> IsTag(t) && Canonical(t)
    requires v in tags && Rewrites(version, tags, v, r)
    ensures var c := ParseConstraint(version).value; c == Window(c.text, k, lo)
    ensures Canonical(lo) && Inside(k, lo, Again(k), v) ==> forall w, r' :: !Rewrites(r, tags, w, r')
  {
    hide ParseConstraint, Ceiling, Inside;
    k, lo := RaisableIsWindow(version);
    var c := ParseConstraint(version).value;
    WindowAdmits(c.text, k, lo, v);
    SameGreatest(v, tags, c.text, k, lo);
    RaisedReadsBack(c, v);
    if Canonical(lo) && Inside(k, lo, Again(k), v) {
      IdempotentExactly(k, lo, v);
      assert NothingToRaise(v, tags, Window("", Again(k), v));
      forall w, r' ensures !Rewrites(r, tags, w, r') {
        SameGreatest(w, tags, r, Again(k), v);
        WindowAdmits(r, Again(k), v, w);
      }
    }
  }

  /** `^1.2.0` admits the tag 2.0.0-a, the raised floor `^2.0.0-a` admits 2.0.0. */
  lemma PreReleaseOfCeilingEscapes()
    ensures var lo, v := Semver(1, 2, 0, ""), Semver(2, 0, 0, "a");
            && Admits(Window("", Caret, lo), v)
            && !Admits(Window("", Caret, lo), Ceiling(Caret, lo)) && Admits(Window("", Caret, v), Ceiling(Caret, lo))
  {
    WindowAdmits("", Caret, Semver(1, 2, 0, ""), Semver(2, 0, 0, "a"));
    WindowAdmits("", Caret, Semver(1, 2, 0, ""), Semver(2, 0, 0, ""));
    WindowAdmits("", Caret, Semver(2, 0, 0, "a"), Semver(2, 0, 0, ""));
  }
}
