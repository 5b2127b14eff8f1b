/** The language of version constraints (parseConstraint, cmd/aril/version.go): every spelling that
    is read, and the versions it admits, said without the parser. */
module Spellings {
  import opened Wrappers
  import opened Strings
  import opened Versions
  import opened Constraints
  import opened Upgrade

  // ---------------------------------------------------------------- versions, as they are written

  /** One to three numbers, a pre-release behind a hyphen, build metadata behind a plus. */
  datatype Operand = Operand(nums: seq<string>, pre: Option<string>, meta: Option<string>)

  predicate IsNumeral(n: string) { n != "" && AllDigits(n) && DigitsValue(n) <= MAX_INT }

  predicate IsOperand(o: Operand) {
    && 1 <= |o.nums| <= 3 && (forall n :: n in o.nums ==> IsNumeral(n))
    && (o.pre.Some? ==> '+' !in o.pre.value)
  }

  function Suffix(mark: char, t: Option<string>): string { if t.None? then "" else [mark] + t.value }

  function OperandText(o: Operand): string { Join(o.nums, '.') + Suffix('-', o.pre) + Suffix('+', o.meta) }

  function NumberAt(o: Operand, i: nat): int {
    if i < |o.nums| && AllDigits(o.nums[i]) then DigitsValue(o.nums[i]) else 0
  }

  /** The version written: a missing number is 0, and the metadata is no part of it. */
  function Written(o: Operand): Semver {
    Semver(NumberAt(o, 0), NumberAt(o, 1), NumberAt(o, 2), if o.pre.Some? then o.pre.value else "")
  }

  lemma {:induction false} JoinHasNo(nums: seq<string>, c: char)
    requires c != '.' && forall n :: n in nums ==> c !in n
    ensures c !in Join(nums, '.')
  {
    if |nums| > 1 { JoinHasNo(nums[1..], c); }
  }

  lemma NumeralHasNo(n: string, c: char)
    requires IsNumeral(n) && !IsDigit(c)
    ensures c !in n
  {
  }

  lemma NumeralsHaveNo(nums: seq<string>, c: char)
    requires c != '.' && !IsDigit(c) && forall n :: n in nums ==> IsNumeral(n)
    ensures c !in Join(nums, '.')
  {
    forall n | n in nums ensures c !in n { NumeralHasNo(n, c); }
    JoinHasNo(nums, c);
  }

  lemma CutOff(before: string, mark: char, t: Option<string>)
    requires mark !in before
    ensures Before(before + Suffix(mark, t), mark) == before
    ensures Behind(before + Suffix(mark, t), mark) == if t.Some? then t.value else ""
  {
    if t.Some? {
      assert before + Suffix(mark, t) == before + [mark] + t.value;
      BeforeAndBehind(before, mark, t.value);
    } else {
      assert before + Suffix(mark, t) == before;
      NoMark(before, mark);
    }
  }

  lemma NumeralsRead(nums: seq<string>, pre: string)
    requires 1 <= |nums| <= 3 && forall n :: n in nums ==> IsNumeral(n)
    ensures ParseNumbers(Join(nums, '.'), pre) == Some(Written(Operand(nums, None, None)).(pre := pre))
  {
    forall n | n in nums ensures '.' !in n { NumeralHasNo(n, '.'); }
    SplitJoin(nums, '.');
    forall i: nat ensures Component(nums, i) == Some(NumberAt(Operand(nums, None, None), i)) {
      if i < |nums| {
        assert nums[i] in nums;
        AtoiOfDigits(nums[i]);
      }
    }
  }

  lemma OperandReads(o: Operand)
    requires IsOperand(o)
    ensures ParseCore(OperandText(o)) == Some(Written(o))
  {
    var numbers := Join(o.nums, '.');
    NumeralsHaveNo(o.nums, '+');
    NumeralsHaveNo(o.nums, '-');
    CutOff(numbers + Suffix('-', o.pre), '+', o.meta);
    CutOff(numbers, '-', o.pre);
    NumeralsRead(o.nums, if o.pre.Some? then o.pre.value else "");
  }

  function Tail(s: string, mark: char): Option<string> { if mark in s then Some(Behind(s, mark)) else None }

  lemma CutRestores(s: string, mark: char)
    ensures s == Before(s, mark) + Suffix(mark, Tail(s, mark))
    ensures mark !in Before(s, mark)
  {
    hide IndexOf;
    var i := IndexOf(s, mark);
    if mark in s { assert s == s[..i] + [s[i]] + s[i + 1..]; }
  }

  function OperandOf(text: string): Operand {
    var body := Before(text, '+');
    Operand(Split(Before(body, '-'), '.'), Tail(body, '-'), Tail(text, '+'))
  }

  lemma {:induction false} SplitHasNo(s: string, c: char, d: char)
    requires d !in s
    ensures forall p :: p in Split(s, c) ==> d !in p
    decreases |s|
  {
    var i := IndexOf(s, c);
    if i < |s| { SplitHasNo(s[i + 1..], c, d); }
  }

  lemma ReadNumerals(numbers: string, pre: string)
    requires ParseNumbers(numbers, pre).Some? && '+' !in numbers && '-' !in numbers
    ensures |Split(numbers, '.')| <= 3 && forall n :: n in Split(numbers, '.') ==> IsNumeral(n)
  {
    hide Split, DigitsValue;
    var nums := Split(numbers, '.');
    SplitHasNo(numbers, '.', '+');
    SplitHasNo(numbers, '.', '-');
    forall n | n in nums ensures IsNumeral(n) {
      var i :| 0 <= i < |nums| && nums[i] == n;
      assert Component(nums, i).Some?;
      if n != "" { assert n[0] in n; }
    }
  }

  lemma OperandRestores(text: string)
    requires ParseCore(text).Some?
    ensures IsOperand(OperandOf(text)) && OperandText(OperandOf(text)) == text
  {
    hide IndexOf, ParseNumbers, Join, Split, IsNumeral;
    var body := Before(text, '+');
    var numbers := Before(body, '-');
    CutRestores(text, '+');
    CutRestores(body, '-');
    JoinSplit(numbers, '.');
    assert forall c :: c in body ==> c != '+';
    assert body == numbers + Suffix('-', Tail(body, '-'));
    assert forall c :: c in numbers ==> c in body;
    assert forall c :: c in Suffix('-', Tail(body, '-')) ==> c in body;
    ReadNumerals(numbers, Behind(body, '-'));
  }

  /** parseSemverCore reads exactly the texts of operands, each as the version it writes. */
  lemma VersionsReadExactly(text: string, v: Semver)
    ensures ParseCore(text) == Some(v) <==> exists o :: IsOperand(o) && OperandText(o) == text && Written(o) == v
  {
    if ParseCore(text).Some? {
      OperandRestores(text);
      OperandReads(OperandOf(text));
    }
    forall o | IsOperand(o) && OperandText(o) == text ensures ParseCore(text) == Some(Written(o)) { OperandReads(o); }
  }

  // ---------------------------------------------------------------- terms and lists

  /** An operator or none, space, an optional `v`, and a version. */
  datatype Term = Term(op: string, gap: string, tag: bool, operand: Operand)

  /** What stands between two commas. */
  datatype Part = Blank(space: string) | Padded(lead: string, term: Term, trail: string)

  function Tagged(tag: bool, o: Operand): string { (if tag then "v" else "") + OperandText(o) }

  predicate IsOperator(op: string) { op == ">=" || op == "<=" || op == ">" || op == "<" || op == "=" }

  predicate IsTerm(t: Term) {
    && (t.op == "" || IsOperator(t.op)) && AllSpace(t.gap) && (t.op == "" ==> t.gap == "")
    && IsOperand(t.operand) && Solid(Tagged(t.tag, t.operand))
  }

  function TermText(t: Term): string { t.op + t.gap + Tagged(t.tag, t.operand) }

  /** What a term asks of a version. */
  predicate Met(t: Term, w: Semver) {
    var c := Compare(w, Written(t.operand));
    && (t.op == ">=" ==> c >= 0) && (t.op == "<=" ==> c <= 0) && (t.op == ">" ==> c > 0) && (t.op == "<" ==> c < 0)
    && (t.op == "=" || t.op == "" ==> c == 0)
  }

  predicate IsPart(p: Part) {
    match p
    case Blank(space) => AllSpace(space)
    case Padded(lead, t, trail) => AllSpace(lead) && IsTerm(t) && AllSpace(trail) && ',' !in TermText(t)
  }

  function PartText(p: Part): string {
    match p
    case Blank(space) => space
    case Padded(lead, t, trail) => lead + TermText(t) + trail
  }

  function Texts(ps: seq<Part>): seq<string> { if ps == [] then [] else [PartText(ps[0])] + Texts(ps[1..]) }

  function OpOf(op: string): Op {
    match op case ">=" => AtLeast case "<=" => AtMost case ">" => Above case "<" => Below case _ => Exactly
  }

  function CompOf(t: Term): Comparator { Comparator(OpOf(t.op), Written(t.operand)) }

  lemma CompMeans(t: Term, w: Semver)
    requires IsTerm(t)
    ensures Holds(CompOf(t), w) <==> Met(t, w)
  {
  }

  /** The first character of a version. */
  lemma TaggedStarts(tag: bool, o: Operand)
    requires IsOperand(o)
    ensures Tagged(tag, o) != "" && (if tag then Tagged(tag, o)[0] == 'v' else IsDigit(Tagged(tag, o)[0]))
    ensures HasPrefix(Tagged(tag, o), "v") == tag
  {
    var n := o.nums[0];
    assert n in o.nums && n[0] in n;
    assert |o.nums| > 1 ==> Join(o.nums, '.') == n + ['.'] + Join(o.nums[1..], '.');
    assert Join(o.nums, '.') != "" && Join(o.nums, '.')[0] == n[0];
    assert OperandText(o) != "" && OperandText(o)[0] == n[0];
  }

  /** parseFlexSemver. */
  lemma TaggedReads(tag: bool, o: Operand)
    requires IsOperand(o)
    ensures var rest := Tagged(tag, o); ParseCore(if HasPrefix(rest, "v") then rest[1..] else rest) == Some(Written(o))
  {
    hide IsOperand, OperandText;
    TaggedStarts(tag, o);
    OperandReads(o);
    if tag { assert Tagged(tag, o)[1..] == OperandText(o); } else { assert Tagged(tag, o) == OperandText(o); }
  }

  lemma OperatorStarts(op: string, rest: string)
    requires (op == "" || IsOperator(op)) && rest != "" && rest[0] !in "<>="
    ensures var text := op + rest;
            && (HasPrefix(text, ">=") <==> op == ">=") && (HasPrefix(text, "<=") <==> op == "<=")
            && (HasPrefix(text, ">") <==> op == ">" || op == ">=") && (HasPrefix(text, "<") <==> op == "<" || op == "<=")
            && (HasPrefix(text, "=") <==> op == "=") && text[|op|..] == rest
  {
    var text := op + rest;
    assert |op| <= 2 && (op == "" || text[0] == op[0]);
    assert |op| < 2 ==> text[|op|] == rest[0];
    assert forall p :: |p| == 1 && |text| >= 1 ==> (HasPrefix(text, p) <==> text[0] == p[0]);
    assert forall p :: |p| == 2 && |text| >= 2 ==> (HasPrefix(text, p) <==> text[0] == p[0] && text[1] == p[1]);
  }

  lemma OperatorReads(op: string, rest: string, value: string, v: Semver)
    requires (op == "" || IsOperator(op)) && rest != "" && rest[0] !in "<>=" && (op == "" ==> rest == value)
    requires TrimSpace(rest) == value && ParseCore(if HasPrefix(value, "v") then value[1..] else value) == Some(v)
    ensures ParseTerm(op + rest) == Some(Comparator(OpOf(op), v))
  {
    hide ParseCore, TrimSpace, HasPrefix;
    OperatorStarts(op, rest);
    if op == "" { assert op + rest == value; }
  }

  lemma TermReads(t: Term)
    requires IsTerm(t)
    ensures ParseTerm(TermText(t)) == Some(CompOf(t))
  {
    hide IsSpace, IsOperand, OperandText, ParseCore, ParseTerm, Written, TrimSpace, Tagged, HasPrefix;
    var value := Tagged(t.tag, t.operand);
    TaggedStarts(t.tag, t.operand);
    TaggedReads(t.tag, t.operand);
    TrimsPadding(t.gap, value, "");
    var rest := t.gap + value;
    assert rest + "" == rest;
    assert TermText(t) == t.op + rest;
    assert rest[0] in t.gap || rest[0] == value[0];
    StartsNoOperator(rest[0]);
    OperatorReads(t.op, rest, value, Written(t.operand));
  }

  lemma TermIsSolid(t: Term)
    requires IsTerm(t)
    ensures Solid(TermText(t)) && TermText(t)[0] !in "^~,*"
  {
    hide IsSpace, IsOperand, OperandText, Tagged;
    var text, value := TermText(t), Tagged(t.tag, t.operand);
    TaggedStarts(t.tag, t.operand);
    assert text[|text| - 1] == value[|value| - 1];
    if t.op == "" {
      assert text == value;
      StartsNoOperator(value[0]);
    } else {
      assert text[0] == t.op[0];
      OperatorIsSolid(t.op);
    }
  }

  lemma OperatorIsSolid(op: string)
    requires IsOperator(op)
    ensures !IsSpace(op[0]) && op[0] !in "^~,*"
  {
  }

  lemma StartsNoOperator(c: char)
    requires IsSpace(c) || IsDigit(c) || c == 'v'
    ensures c !in "<>=^~,*"
  {
  }

  function Operator(part: string): (op: string)
    ensures HasPrefix(part, op) && (op == "" || IsOperator(op))
  {
    if HasPrefix(part, ">=") then ">=" else if HasPrefix(part, "<=") then "<=" else if HasPrefix(part, ">") then ">"
    else if HasPrefix(part, "<") then "<" else if HasPrefix(part, "=") then "=" else ""
  }

  /** What parseFlexSemver makes of an operand. */
  lemma TaggedRestores(rest: string) returns (tag: bool, o: Operand)
    requires ParseCore(if HasPrefix(rest, "v") then rest[1..] else rest).Some?
    ensures IsOperand(o) && Tagged(tag, o) == rest
  {
    hide ParseCore, OperandOf, IsOperand, OperandText;
    tag := HasPrefix(rest, "v");
    var text := if tag then rest[1..] else rest;
    OperandRestores(text);
    o := OperandOf(text);
    if tag { assert rest == rest[..1] + rest[1..]; }
  }

  /** The operand of a term, with its `v`. */
  function Value(part: string): string {
    if Operator(part) == "" then part else TrimSpace(part[|Operator(part)|..])
  }

  lemma TermValue(part: string)
    requires ParseTerm(part).Some?
    ensures var rest := Value(part); ParseCore(if HasPrefix(rest, "v") then rest[1..] else rest).Some?
  {
    hide ParseCore, TrimSpace;
  }

  lemma GapRestores(part: string) returns (gap: string)
    requires Solid(part)
    ensures AllSpace(gap) && part == Operator(part) + gap + Value(part) && (Operator(part) == "" ==> gap == "")
  {
    hide IsSpace, TrimSpace;
    var op := Operator(part);
    gap := "";
    assert part == op + part[|op|..];
    if op != "" {
      var lead, trail := Padding(part[|op|..]);
      gap := lead;
      assert part == (op + lead + Value(part)) + trail;
      EndsInSpace(op + lead + Value(part), trail);
    }
  }

  lemma TermRestores(part: string) returns (t: Term)
    requires Solid(part) && ParseTerm(part).Some?
    ensures IsTerm(t) && TermText(t) == part
  {
    hide IsSpace, ParseCore, ParseTerm, IsOperand, OperandText, Value, Tagged, HasPrefix;
    TermValue(part);
    var gap := GapRestores(part);
    var tag, o := TaggedRestores(Value(part));
    t := Term(Operator(part), gap, tag, o);
    TaggedStarts(tag, o);
    TaggedIsSolid(part, Operator(part) + gap, Value(part), tag, o);
  }

  lemma TaggedIsSolid(s: string, start: string, value: string, tag: bool, o: Operand)
    requires IsOperand(o) && value == Tagged(tag, o) && s == start + value && Solid(s)
    ensures Solid(value)
  {
    hide IsSpace, IsOperand, OperandText;
    TaggedStarts(tag, o);
    assert s[|s| - 1] == value[|value| - 1];
    if IsSpace(value[0]) { SpaceIsNone(value[0]); }
  }

  lemma SpaceIsNone(c: char)
    requires IsSpace(c)
    ensures !IsDigit(c) && c != 'v'
  {
  }

  /** The terms of a list, in order. */
  function CompsOf(ps: seq<Part>): seq<Comparator> {
    if ps == [] then [] else
    if ps[0].Padded? then [CompOf(ps[0].term)] + CompsOf(ps[1..]) else CompsOf(ps[1..])
  }

  lemma PartReads(p: Part)
    requires IsPart(p)
    ensures p.Blank? ==> TrimSpace(PartText(p)) == ""
    ensures p.Padded? ==> TrimSpace(PartText(p)) == TermText(p.term) != "" && ParseTerm(TermText(p.term)) == Some(CompOf(p.term))
  {
    hide IsSpace, ParseTerm, TrimSpace, TermText, CompOf;
    match p {
      case Blank(space) => TrimsBlank(space);
      case Padded(lead, t, trail) =>
        TermReads(t);
        TermIsSolid(t);
        TrimsPadding(lead, TermText(t), trail);
    }
  }

  lemma {:induction false} TermsRead(ps: seq<Part>)
    requires forall i :: 0 <= i < |ps| ==> IsPart(ps[i])
    ensures ParseTerms(Texts(ps)) == Some(CompsOf(ps))
  {
    hide ParseTerm, TrimSpace, IsPart, PartText, TermText, CompOf;
    if ps != [] {
      PartReads(ps[0]);
      TermsRead(ps[1..]);
      assert Texts(ps)[1..] == Texts(ps[1..]);
    }
  }

  lemma {:induction false} TermsRestore(parts: seq<string>) returns (ps: seq<Part>)
    requires ParseTerms(parts).Some? && forall p :: p in parts ==> ',' !in p
    ensures Texts(ps) == parts && forall i :: 0 <= i < |ps| ==> IsPart(ps[i])
    decreases |parts|
  {
    hide IsSpace, ParseTerm, TrimSpace, IsTerm, TermText;
    ps := [];
    if parts != [] {
      assert parts[0] in parts && forall p :: p in parts[1..] ==> p in parts;
      var rest := TermsRestore(parts[1..]);
      var lead, trail := Padding(parts[0]);
      var core := TrimSpace(parts[0]);
      var p := Blank(parts[0]);
      if core == "" {
        assert parts[0] == lead + trail;
      } else {
        var t := TermRestores(core);
        p := Padded(lead, t, trail);
        assert forall c :: c in core ==> c in parts[0];
      }
      ps := [p] + rest;
      assert ps[1..] == rest && parts == [parts[0]] + parts[1..];
    }
  }

  /** A list admits what all its terms admit. */
  lemma {:induction false} ListMeans(ps: seq<Part>, w: Semver)
    requires forall i :: 0 <= i < |ps| ==> IsPart(ps[i])
    ensures (forall cm :: cm in CompsOf(ps) ==> Holds(cm, w)) <==> forall i :: 0 <= i < |ps| && ps[i].Padded? ==> Met(ps[i].term, w)
  {
    hide Holds, Met, IsTerm, CompOf, TermText;
    if ps != [] {
      ListMeans(ps[1..], w);
      assert forall i :: 1 <= i < |ps| ==> ps[i] == ps[1..][i - 1];
      if ps[0].Padded? { CompMeans(ps[0].term, w); }
    }
  }

  // ---------------------------------------------------------------- constraints

  /** `*`, a commit, `^` or `~` before a version, a version before `.*`, a list, a tag with or without `=`. */
  datatype Spelling =
    | Any | Commit(sha: string) | Floating(mark: char, least: Operand) | Wild(stem: Operand)
    | Listed(parts: seq<Part>) | Pinned(eq: bool, gap: string, version: Operand)

  function Text(sp: Spelling): string {
    match sp
    case Any => "*"
    case Commit(sha) => sha
    case Floating(mark, o) => [mark] + OperandText(o)
    case Wild(o) => OperandText(o) + ".*"
    case Listed(ps) => Join(Texts(ps), ',')
    case Pinned(eq, gap, o) => (if eq then "=" + gap else "") + ("v" + OperandText(o))
  }

  /** A text with one of these characters is read as a list, unless it ends in `.*`. */
  predicate Listing(text: string) { '<' in text || '>' in text || ',' in text }
  predicate ReadAsList(text: string) { Listing(text) && !HasSuffix(text, ".*") }

  predicate IsSpelling(sp: Spelling) {
    && Solid(Text(sp))
    && match sp
       case Any => true
       case Commit(sha) => |sha| == 40 && forall c :: c in sha ==> c in "0123456789abcdef"
       case Floating(mark, o) => mark in "^~" && IsOperand(o)
       case Wild(o) => IsOperand(o)
       case Listed(ps) =>
         && (forall i :: 0 <= i < |ps| ==> IsPart(ps[i])) && (exists i :: 0 <= i < |ps| && ps[i].Padded?)
         && ReadAsList(Text(sp))
       case Pinned(eq, gap, o) =>
         && IsOperand(o) && AllSpace(gap) && (!eq ==> gap == "")
         && !Listing(Text(sp)) && !HasSuffix(Text(sp), ".*")
  }

  /** A pre-release of the release with these numbers. */
  predicate PreReleaseOf(w: Semver, major: int, minor: int, patch: int) {
    w.major == major && w.minor == minor && w.patch == patch && w.pre != ""
  }

  /** `^lo`: from lo up, the left-most number of lo that is not 0 unchanged. Only the pre-releases of
      the next such number get in besides. */
  predicate CaretAllows(lo: Semver, w: Semver) {
    && Compare(w, lo) >= 0
    && if lo.major > 0 then lo.major < MAX_INT && (w.major == lo.major || PreReleaseOf(w, lo.major + 1, 0, 0))
       else if lo.minor > 0 then
         lo.minor < MAX_INT && w.major == 0 && (w.minor == lo.minor || PreReleaseOf(w, 0, lo.minor + 1, 0))
       else lo.patch < MAX_INT && w.major == 0 && w.minor == 0 && (w.patch == lo.patch || PreReleaseOf(w, 0, 0, lo.patch + 1))
  }

  /** `~lo` and `lo.*`: the minor number unchanged if it is given, the major number otherwise. */
  predicate TildeAllows(lo: Semver, minorGiven: bool, w: Semver) {
    && Compare(w, lo) >= 0
    && if minorGiven then
         && lo.minor < MAX_INT && w.major == lo.major
         && (w.minor == lo.minor || PreReleaseOf(w, lo.major, lo.minor + 1, 0))
       else lo.major < MAX_INT && (w.major == lo.major || PreReleaseOf(w, lo.major + 1, 0, 0))
  }

  /** The versions a spelling asks for. */
  predicate Allows(sp: Spelling, w: Semver) {
    match sp
    case Any => true
    case Commit(_) => false
    case Floating(mark, o) => if mark == '^' then CaretAllows(Written(o), w) else TildeAllows(Written(o), |o.nums| >= 2, w)
    case Wild(o) => TildeAllows(Written(o), '.' in OperandText(o), w)
    case Listed(ps) => forall i :: 0 <= i < |ps| && ps[i].Padded? ==> Met(ps[i].term, w)
    case Pinned(_, _, o) => Compare(w, Written(o)) == 0
  }

  /** The constraint a spelling is read as. */
  function Meaning(sp: Spelling): Constraint {
    match sp
    case Any => Constraint(Text(sp), [], "")
    case Commit(sha) => Constraint(Text(sp), [], sha)
    case Floating(mark, o) => Window(Text(sp), if mark == '^' then Caret else Tilde(|o.nums| >= 2), Written(o))
    case Wild(o) => Window(Text(sp), Tilde('.' in OperandText(o)), Written(o))
    case Listed(ps) => Constraint(Text(sp), CompsOf(ps), "")
    case Pinned(_, _, o) => Constraint(Text(sp), [Comparator(Exactly, Written(o))], "")
  }

  /** A caret window, by its numbers. */
  lemma CaretMeans(text: string, lo: Semver, w: Semver)
    requires lo.InRange() && w.InRange()
    ensures Admits(Window(text, Caret, lo), w) <==> CaretAllows(lo, w)
  {
    hide Admits;
    WindowAdmits(text, Caret, lo, w);
  }

  /** A tilde window, by its numbers. */
  lemma TildeMeans(text: string, lo: Semver, minorGiven: bool, w: Semver)
    requires lo.InRange() && w.InRange()
    ensures Admits(Window(text, Tilde(minorGiven), lo), w) <==> TildeAllows(lo, minorGiven, w)
  {
    hide Admits;
    WindowAdmits(text, Tilde(minorGiven), lo, w);
  }

  lemma WrittenInRange(o: Operand)
    requires IsOperand(o)
    ensures Written(o).InRange()
  {
    forall i: nat ensures 0 <= NumberAt(o, i) <= MAX_INT {
      if i < |o.nums| { assert o.nums[i] in o.nums; }
    }
  }

  lemma MeaningAllows(sp: Spelling, w: Semver)
    requires IsSpelling(sp) && w.InRange()
    ensures Admits(Meaning(sp), w) <==> Allows(sp, w)
  {
    hide Written, Text, Holds, CaretAllows, TildeAllows, Met, IsPart, IsOperand;
    match sp {
      case Any =>
      case Commit(sha) =>
      case Floating(mark, o) =>
        WrittenInRange(o);
        CaretMeans(Text(sp), Written(o), w);
        TildeMeans(Text(sp), Written(o), |o.nums| >= 2, w);
      case Wild(o) =>
        WrittenInRange(o);
        TildeMeans(Text(sp), Written(o), '.' in OperandText(o), w);
      case Listed(ps) => ListMeans(ps, w);
      case Pinned(_, _, o) => PinMeans(Written(o), w);
    }
  }

  lemma PinMeans(v: Semver, w: Semver)
    ensures Holds(Comparator(Exactly, v), w) <==> Compare(w, v) == 0
  {
  }

  // ---------------------------------------------------------------- each spelling is read

  lemma TextStarts(o: Operand)
    requires IsOperand(o)
    ensures OperandText(o) != "" && IsDigit(OperandText(o)[0])
  {
    TaggedStarts(false, o);
    assert Tagged(false, o) == OperandText(o);
  }

  lemma NotHex(raw: string, c: char)
    requires c in raw && c !in "0123456789abcdef"
    ensures !IsFullCommitSha(raw)
  {
  }

  lemma StartsWith(raw: string, c: char)
    requires raw != ""
    ensures HasPrefix(raw, [c]) <==> raw[0] == c
  {
  }

  lemma ReadsAny(s: string)
    requires TrimSpace(s) == "*"
    ensures ParseConstraint(s) == Some(Meaning(Any))
  {
    hide TrimSpace;
  }

  lemma ReadsCommit(sha: string, s: string)
    requires IsSpelling(Commit(sha)) && TrimSpace(s) == sha
    ensures ParseConstraint(s) == Some(Meaning(Commit(sha)))
  {
    hide TrimSpace;
    forall c | c in sha ensures IsDigit(c) || 'a' <= c <= 'f' { assert c in "0123456789abcdef"; }
  }

  lemma MetaCut(numbers: string, meta: string)
    requires '+' !in numbers && '-' !in numbers
    ensures BodyCore(numbers + ['+'] + meta) == numbers
  {
    hide IndexOf;
    var text := numbers + ['+'] + meta;
    if '-' in meta {
      CutRestores(meta, '-');
      var start, rest := Before(meta, '-'), Behind(meta, '-');
      assert text == (numbers + ['+'] + start) + ['-'] + rest;
      BeforeAndBehind(numbers + ['+'] + start, '-', rest);
      BeforeAndBehind(numbers, '+', start);
    } else {
      NoMark(text, '-');
      BeforeAndBehind(numbers, '+', meta);
    }
  }

  lemma BodyCoreIs(o: Operand)
    requires IsOperand(o)
    ensures BodyCore(OperandText(o)) == Join(o.nums, '.')
    ensures Split(Join(o.nums, '.'), '.') == o.nums
  {
    hide IsNumeral, IndexOf, Split, Join;
    var text, numbers := OperandText(o), Join(o.nums, '.');
    NumeralsHaveNo(o.nums, '+');
    NumeralsHaveNo(o.nums, '-');
    forall n | n in o.nums ensures '.' !in n { NumeralHasNo(n, '.'); }
    SplitJoin(o.nums, '.');
    NoMark(numbers, '+');
    NoMark(numbers, '-');
    if o.pre.Some? {
      var rest := o.pre.value + Suffix('+', o.meta);
      assert text == numbers + ['-'] + rest;
      BeforeAndBehind(numbers, '-', rest);
    } else if o.meta.Some? {
      assert text == numbers + ['+'] + o.meta.value;
      MetaCut(numbers, o.meta.value);
    } else {
      assert text == numbers;
    }
  }

  lemma ReadsFloating(mark: char, o: Operand, s: string)
    requires IsSpelling(Floating(mark, o)) && TrimSpace(s) == Text(Floating(mark, o))
    ensures ParseConstraint(s) == Some(Meaning(Floating(mark, o)))
  {
    hide TrimSpace, IsOperand, OperandText, Written, BodyCore, Ceiling, IsSpace, ParseCore, IsFullCommitSha;
    var raw := [mark] + OperandText(o);
    assert raw[0] == mark && raw[0] in raw && raw[1..] == OperandText(o);
    NotHex(raw, mark);
    OperandReads(o);
    BodyCoreIs(o);
    StartsWith(raw, '^');
    StartsWith(raw, '~');
  }

  lemma ReadsWild(o: Operand, s: string)
    requires IsSpelling(Wild(o)) && TrimSpace(s) == Text(Wild(o))
    ensures ParseConstraint(s) == Some(Meaning(Wild(o)))
  {
    hide TrimSpace, IsOperand, OperandText, Written, Ceiling, IsSpace, ParseCore, IsFullCommitSha;
    var stem := OperandText(o);
    var raw := stem + ".*";
    TextStarts(o);
    OperandReads(o);
    assert raw[..|raw| - 2] == stem && raw[|raw| - 2..] == ".*" && raw[|raw| - 1] == '*' && raw[0] == stem[0];
    NotHex(raw, '*');
    StartsWith(raw, '^');
    StartsWith(raw, '~');
    StartsNoOperator(raw[0]);
  }

  /** A tag, with or without `=`. */
  lemma PinRoute(s: string, raw: string)
    requires TrimSpace(s) == raw != "" && !Listing(raw) && !HasSuffix(raw, ".*")
    requires raw[0] == '=' || raw[0] == 'v'
    ensures var v := Parse(if raw[0] == '=' then TrimSpace(raw[1..]) else raw);
            ParseConstraint(s) == if v.Some? then Some(Constraint(raw, [Comparator(Exactly, v.value)], "")) else None
  {
    hide TrimSpace, Parse, IsFullCommitSha, HasSuffix;
    assert raw[0] in raw;
    NotHex(raw, raw[0]);
    StartsWith(raw, '^');
    StartsWith(raw, '~');
    StartsWith(raw, '=');
    StartsWith(raw, 'v');
  }

  lemma ReadsPinned(eq: bool, gap: string, o: Operand, s: string)
    requires IsSpelling(Pinned(eq, gap, o)) && TrimSpace(s) == Text(Pinned(eq, gap, o))
    ensures ParseConstraint(s) == Some(Meaning(Pinned(eq, gap, o)))
  {
    hide TrimSpace, ParseConstraint, IsOperand, OperandText, Written, IsSpace, ParseCore, Listing, HasSuffix;
    var value := "v" + OperandText(o);
    var raw := Text(Pinned(eq, gap, o));
    OperandReads(o);
    ParseTag(OperandText(o));
    assert raw[|raw| - 1] == value[|value| - 1];
    assert Solid(value) by { StartsNoSpace(); }
    if eq {
      assert raw[0] == '=' && raw[1..] == gap + value + "";
      TrimsPadding(gap, value, "");
    } else {
      assert raw == value;
    }
    PinRoute(s, raw);
  }

  lemma StartsNoSpace()
    ensures !IsSpace('v')
  {
  }

  lemma {:induction false} TextsAt(ps: seq<Part>)
    ensures |Texts(ps)| == |ps| && forall i :: 0 <= i < |ps| ==> Texts(ps)[i] == PartText(ps[i])
  {
    if ps != [] {
      TextsAt(ps[1..]);
      assert forall i :: 1 <= i < |ps| ==> Texts(ps)[i] == Texts(ps[1..])[i - 1] && ps[i] == ps[1..][i - 1];
    }
  }

  lemma PartHasNoComma(p: Part)
    requires IsPart(p)
    ensures ',' !in PartText(p)
  {
    hide IsTerm, TermText;
    assert !IsSpace(',');
  }

  lemma PartStarts(p: Part)
    requires IsPart(p)
    ensures PartText(p) == "" || IsSpace(PartText(p)[0]) || PartText(p)[0] !in "^~"
  {
    hide IsSpace, IsTerm, TermText;
    match p {
      case Blank(space) =>
        assert space + "" == space;
        StartsInSpace(space, "");
      case Padded(lead, t, trail) =>
        TermIsSolid(t);
        StartsInSpace(lead, TermText(t) + trail);
        assert PartText(p) == lead + (TermText(t) + trail);
    }
  }

  lemma ListStarts(ps: seq<Part>)
    requires IsSpelling(Listed(ps))
    ensures Text(Listed(ps))[0] !in "^~"
  {
    hide IsSpace, IsTerm, PartText, HasSuffix, IsPart, Listing;
    TextsAt(ps);
    var texts := Texts(ps);
    assert |texts| > 1 ==> Join(texts, ',') == texts[0] + [','] + Join(texts[1..], ',');
    if texts[0] != "" { PartStarts(ps[0]); }
  }

  lemma {:induction false} SomeTerm(ps: seq<Part>)
    ensures CompsOf(ps) != [] <==> exists i :: 0 <= i < |ps| && ps[i].Padded?
  {
    if ps != [] && ps[0].Blank? {
      SomeTerm(ps[1..]);
      assert forall i :: 1 <= i < |ps| ==> ps[i] == ps[1..][i - 1];
      assert forall i :: 0 <= i < |ps[1..]| ==> ps[1..][i] == ps[i + 1];
    }
  }

  lemma ListRoute(s: string, raw: string)
    requires TrimSpace(s) == raw != "" && ReadAsList(raw) && raw[0] !in "^~"
    ensures var comps := ParseTerms(Split(raw, ','));
            ParseConstraint(s) == if comps.Some? && comps.value != [] then Some(Constraint(raw, comps.value, "")) else None
  {
    hide TrimSpace, ParseTerms, Split, IsFullCommitSha, HasSuffix;
    var c := if '<' in raw then '<' else if '>' in raw then '>' else ',';
    NotHex(raw, c);
    StartsWith(raw, '^');
    StartsWith(raw, '~');
  }

  lemma ReadsListed(ps: seq<Part>, s: string)
    requires IsSpelling(Listed(ps)) && TrimSpace(s) == Text(Listed(ps))
    ensures ParseConstraint(s) == Some(Meaning(Listed(ps)))
  {
    hide TrimSpace, ParseConstraint, IsSpace, PartText, IsPart, CompsOf, ParseTerms, Listing, HasSuffix;
    TextsAt(ps);
    forall p | p in Texts(ps) ensures ',' !in p {
      var i :| 0 <= i < |ps| && Texts(ps)[i] == p;
      PartHasNoComma(ps[i]);
    }
    SplitJoin(Texts(ps), ',');
    TermsRead(ps);
    SomeTerm(ps);
    ListStarts(ps);
    ListRoute(s, Text(Listed(ps)));
  }

  /** Every spelling is read, whatever space surrounds it, as a constraint that admits what the spelling
      asks for. */
  lemma SpellingIsRead(sp: Spelling, s: string)
    requires IsSpelling(sp) && TrimSpace(s) == Text(sp)
    ensures ParseConstraint(s) == Some(Meaning(sp))
    ensures forall w: Semver :: w.InRange() ==> (Admits(ParseConstraint(s).value, w) <==> Allows(sp, w))
  {
    hide TrimSpace, ParseConstraint, IsSpelling, Allows, Admits, Meaning;
    match sp {
      case Any => ReadsAny(s);
      case Commit(sha) => ReadsCommit(sha, s);
      case Floating(mark, o) => ReadsFloating(mark, o, s);
      case Wild(o) => ReadsWild(o, s);
      case Listed(ps) => ReadsListed(ps, s);
      case Pinned(eq, gap, o) => ReadsPinned(eq, gap, o, s);
    }
    forall w: Semver | w.InRange() ensures Admits(Meaning(sp), w) <==> Allows(sp, w) { MeaningAllows(sp, w); }
  }

  // ---------------------------------------------------------------- and nothing else is

  lemma HexIn(c: char)
    requires IsDigit(c) || 'a' <= c <= 'f'
    ensures c in "0123456789abcdef"
  {
    var hex := "0123456789abcdef";
    var i := if IsDigit(c) then c as int - '0' as int else c as int - 'a' as int + 10;
    assert hex[i] == c;
  }

  lemma PinRestores(raw: string) returns (sp: Spelling)
    requires Solid(raw) && !Listing(raw) && !HasSuffix(raw, ".*") && (raw[0] == '=' || raw[0] == 'v')
    requires Parse(if raw[0] == '=' then TrimSpace(raw[1..]) else raw).Some?
    ensures IsSpelling(sp) && Text(sp) == raw
  {
    hide TrimSpace, IsOperand, OperandText, OperandOf, IsSpace, ParseCore, Listing, HasSuffix;
    var eq := raw[0] == '=';
    var value := if eq then TrimSpace(raw[1..]) else raw;
    var o := OperandOf(value[1..]);
    OperandRestores(value[1..]);
    assert value == "v" + value[1..];
    var gap := "";
    if eq {
      var lead, trail := Padding(raw[1..]);
      gap := lead;
      assert raw == ("=" + lead + value) + trail;
      EndsInSpace("=" + lead + value, trail);
      assert raw == "=" + gap + value;
    }
    sp := Pinned(eq, gap, o);
    assert Text(sp) == raw;
  }

  lemma ListRestores(raw: string) returns (sp: Spelling)
    requires Solid(raw) && ReadAsList(raw)
    requires ParseTerms(Split(raw, ',')).Some? && ParseTerms(Split(raw, ',')).value != []
    ensures IsSpelling(sp) && Text(sp) == raw
  {
    hide IsSpace, IsPart, Listing, HasSuffix, CompsOf, ParseTerms, Split, Join, Texts, PartText;
    var ps := TermsRestore(Split(raw, ','));
    JoinSplit(raw, ',');
    TermsRead(ps);
    SomeTerm(ps);
    sp := Listed(ps);
  }

  lemma FloatRestores(raw: string) returns (sp: Spelling)
    requires Solid(raw) && raw[0] in "^~" && ParseCore(raw[1..]).Some?
    ensures IsSpelling(sp) && Text(sp) == raw
  {
    hide IsSpace, IsOperand, OperandText, OperandOf, ParseCore;
    OperandRestores(raw[1..]);
    sp := Floating(raw[0], OperandOf(raw[1..]));
    assert raw == [raw[0]] + raw[1..];
  }

  lemma WildRestores(raw: string) returns (sp: Spelling)
    requires Solid(raw) && HasSuffix(raw, ".*") && ParseCore(raw[..|raw| - 2]).Some?
    ensures IsSpelling(sp) && Text(sp) == raw
  {
    hide IsSpace, IsOperand, OperandText, OperandOf, ParseCore;
    OperandRestores(raw[..|raw| - 2]);
    sp := Wild(OperandOf(raw[..|raw| - 2]));
    assert raw == raw[..|raw| - 2] + raw[|raw| - 2..];
  }

  lemma ConstraintRestores(s: string) returns (sp: Spelling)
    requires ParseConstraint(s).Some?
    ensures IsSpelling(sp) && Text(sp) == TrimSpace(s)
  {
    hide TrimSpace, ParseCore, ParseTerms, Split, IsSpace, Parse, Ceiling, BodyCore;
    var raw := TrimSpace(s);
    var lead, trail := Padding(s);
    StartsWith(raw, '^');
    StartsWith(raw, '~');
    StartsWith(raw, '=');
    StartsWith(raw, 'v');
    if IsFullCommitSha(raw) {
      forall c | c in raw ensures c in "0123456789abcdef" { HexIn(c); }
      sp := Commit(raw);
    } else if raw == "*" {
      sp := Any;
    } else if raw[0] == '^' || raw[0] == '~' {
      sp := FloatRestores(raw);
    } else if HasSuffix(raw, ".*") {
      sp := WildRestores(raw);
    } else if Listing(raw) {
      sp := ListRestores(raw);
    } else {
      sp := PinRestores(raw);
    }
  }

  /** parseConstraint accepts exactly the spellings, with space around them or not. */
  lemma ConstraintsReadExactly(s: string)
    ensures ParseConstraint(s).Some? <==> exists sp :: IsSpelling(sp) && Text(sp) == TrimSpace(s)
  {
    hide ParseConstraint, IsSpelling, Text, TrimSpace, Meaning;
    if ParseConstraint(s).Some? { var sp := ConstraintRestores(s); }
    forall sp | IsSpelling(sp) && Text(sp) == TrimSpace(s) ensures ParseConstraint(s).Some? { SpellingIsRead(sp, s); }
  }

  // ---------------------------------------------------------------- printed versions

  function CoreOperand(v: Semver): Operand {
    Operand([Spell(v.major), Spell(v.minor), Spell(v.patch)], if v.pre == "" then None else Some(v.pre), None)
  }

  lemma SpelledNumeral(n: int)
    requires 0 <= n <= MAX_INT
    ensures IsNumeral(Spell(n)) && DigitsValue(Spell(n)) == n
  {
    DecIsDigits(n);
  }

  /** What versionCore prints is an operand. */
  lemma CoreIsOperand(v: Semver)
    requires v.InRange() && '+' !in v.pre
    ensures var o := CoreOperand(v); IsOperand(o) && OperandText(o) == Core(v) && Written(o) == v
  {
    hide DigitsValue, Spell;
    var o := CoreOperand(v);
    SpelledNumeral(v.major);
    SpelledNumeral(v.minor);
    SpelledNumeral(v.patch);
    var nums := [Spell(v.major), Spell(v.minor), Spell(v.patch)];
    assert nums[1..] == [Spell(v.minor), Spell(v.patch)] && nums[1..][1..] == [Spell(v.patch)];
    assert Join(nums[1..], '.') == Spell(v.minor) + ['.'] + Spell(v.patch);
    assert Join(nums, '.') == Numbers(v);
  }

  /** A comparison with a printed version, space around it and behind its operator, with or without the `v`. */
  datatype Comparison = Comparison(lead: string, op: string, gap: string, tag: bool, v: Semver, trail: string)

  predicate IsComparison(q: Comparison) {
    && AllSpace(q.lead) && AllSpace(q.gap) && AllSpace(q.trail) && (q.op == "" ==> q.gap == "") && (q.op == "" || IsOperator(q.op))
    && IsTag(q.v) && ',' !in q.v.pre
  }

  function ComparisonText(q: Comparison): string {
    q.lead + (q.op + q.gap + ((if q.tag then "v" else "") + Core(q.v))) + q.trail
  }

  function PartOf(q: Comparison): Part { Padded(q.lead, Term(q.op, q.gap, q.tag, CoreOperand(q.v)), q.trail) }

  lemma ComparisonIsPart(q: Comparison)
    requires IsComparison(q)
    ensures IsPart(PartOf(q)) && PartText(PartOf(q)) == ComparisonText(q)
    ensures IsTerm(PartOf(q).term) && Written(PartOf(q).term.operand) == q.v
  {
    hide IsSpace, Core, CoreOperand, OperandText, Written, IsOperand;
    CoreIsOperand(q.v);
    CoreEndsSolid(q.v);
    var value := Tagged(q.tag, CoreOperand(q.v));
    TaggedStarts(q.tag, CoreOperand(q.v));
    assert value[|value| - 1] == Core(q.v)[|Core(q.v)| - 1];
    if IsSpace(value[0]) { SpaceIsNone(value[0]); }
    CoreHasNoComma(q.v);
    assert !IsSpace(',') by { StartsNoComma(); }
  }

  lemma StartsNoComma()
    ensures !IsSpace(',')
  {
  }

  lemma CoreHasNoComma(v: Semver)
    requires v.InRange() && ',' !in v.pre
    ensures ',' !in Core(v)
  {
    NumbersHaveNo(v, ',');
  }

  function ComparisonTexts(qs: seq<Comparison>): seq<string> {
    seq(|qs|, i requires 0 <= i < |qs| => ComparisonText(qs[i]))
  }

  /** A list of comparisons admits the versions all of them hold for. */
  lemma ComparisonsAdmit(qs: seq<Comparison>, s: string, w: Semver)
    requires qs != [] && (forall i :: 0 <= i < |qs| ==> IsComparison(qs[i])) && w.InRange()
    requires TrimSpace(s) == Join(ComparisonTexts(qs), ',') && ReadAsList(TrimSpace(s))
    ensures ParseConstraint(s).Some?
    ensures Admits(ParseConstraint(s).value, w) <==>
            forall i :: 0 <= i < |qs| ==>
                          && (qs[i].op == ">=" ==> Compare(w, qs[i].v) >= 0) && (qs[i].op == "<=" ==> Compare(w, qs[i].v) <= 0)
                          && (qs[i].op == ">" ==> Compare(w, qs[i].v) > 0) && (qs[i].op == "<" ==> Compare(w, qs[i].v) < 0)
                          && (qs[i].op == "=" || qs[i].op == "" ==> Compare(w, qs[i].v) == 0)
  {
    hide TrimSpace, ParseConstraint, Admits, Meaning, IsSpace, IsComparison, ComparisonText, IsPart, IsTerm, PartText, Written,
         HasSuffix, Compare;
    var ps := seq(|qs|, i requires 0 <= i < |qs| => PartOf(qs[i]));
    forall i | 0 <= i < |qs| ensures IsPart(ps[i]) && PartText(ps[i]) == ComparisonText(qs[i]) && Written(ps[i].term.operand) == qs[i].v {
      ComparisonIsPart(qs[i]);
    }
    TextsAt(ps);
    assert Texts(ps) == ComparisonTexts(qs);
    var lead, trail := Padding(s);
    assert ps[0].Padded?;
    SpellingIsRead(Listed(ps), s);
    assert Admits(ParseConstraint(s).value, w) <==> Allows(Listed(ps), w);
    forall i | 0 <= i < |qs| ensures ps[i].Padded? && ps[i].term.op == qs[i].op && Written(ps[i].term.operand) == qs[i].v {}
  }
}
