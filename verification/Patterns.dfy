/**
 Match lowering (internal/codegen/match.go): Aril's first-match rule, the `switch`
 the generator emits for it, and the bindings of the chosen arm. A single-subject
 match is a switch over one captured value, a tuple match one over several.
 */
module Patterns {
  import opened Wrappers

  // ---------------------------------------------------------------- values and patterns

  datatype Value = Prim(n: int) | Sum(tag: int, fields: seq<Value>) | Product(fields: seq<Value>)

  const UNIT: Value := Product([])

  /** Component i of a tuple, field i of a record, payload i of a variant. */
  function FieldOf(v: Value, i: nat): Value {
    if !v.Prim? && i < |v.fields| then v.fields[i] else UNIT
  }

  datatype Pattern =
    | Wildcard
    | UnitPat
    | FloatPat
    | IdentPat(name: string)
    | LitPat(n: int)                                  // integer, string, bool and rune literals
    | VariantPat(name: string, sub: seq<Pattern>)
    | ProductPat(sub: seq<Pattern>)                   // tuple and record patterns
    | AltPat(atoms: seq<Pattern>)

  /** A declared variant: its sum type, its tag and the number of its payload fields. */
  datatype VariantInfo = VariantInfo(owner: string, tag: int, arity: nat)
  type Variants = map<string, VariantInfo>

  type Bindings = seq<(string, Value)>

  // ---------------------------------------------------------------- Aril's rule

  /** Matching below a constructor: an identifier binds, everything else may test. */
  function MatchSub(p: Pattern, v: Value, variants: Variants): Option<Bindings>
    decreases p, 1
  {
    match p
    case Wildcard => Some([])
    case UnitPat => Some([])
    case FloatPat => None
    case IdentPat(x) => if x == "_" then Some([]) else Some([(x, v)])
    case LitPat(n) => if v == Prim(n) then Some([]) else None
    case VariantPat(c, sub) =>
      if c in variants && v.Sum? && v.tag == variants[c].tag then MatchFields(sub, v, 0, variants) else None
    case ProductPat(sub) => MatchFields(sub, v, 0, variants)
    case AltPat(atoms) => if MatchesAny(atoms, v, variants) then Some([]) else None
  }

  function MatchFields(ps: seq<Pattern>, v: Value, i: nat, variants: Variants): Option<Bindings>
    decreases ps, 0
  {
    if ps == [] then Some([]) else
    match (MatchSub(ps[0], FieldOf(v, i), variants), MatchFields(ps[1..], v, i + 1, variants))
    case (Some(b), Some(bs)) => Some(b + bs)
    case _ => None
  }

  /** An alternative: atoms are literals and variants, which bind nothing. */
  predicate MatchesAny(atoms: seq<Pattern>, v: Value, variants: Variants)
    decreases atoms, 0
  {
    atoms != [] && (MatchAtom(atoms[0], v, variants) || MatchesAny(atoms[1..], v, variants))
  }

  predicate MatchAtom(p: Pattern, v: Value, variants: Variants)
    decreases p, 2
  {
    match p
    case IdentPat(x) => if x in variants then v.Sum? && v.tag == variants[x].tag else true
    case _ => MatchSub(p, v, variants).Some?
  }

  /** An identifier in arm position names a variant of the component's own sum type;
      with an unknown component type, any variant. */
  predicate IsConstructor(x: string, compType: string, variants: Variants) {
    x in variants && (compType == "" || variants[x].owner == compType)
  }

  /** A component of an arm's pattern against the value of the subject's component. */
  function MatchComp(p: Pattern, v: Value, compType: string, variants: Variants): Option<Bindings> {
    match p
    case IdentPat(x) =>
      if IsConstructor(x, compType, variants) then
        (if v.Sum? && v.tag == variants[x].tag then Some([]) else None)
      else MatchSub(p, v, variants)
    case _ => MatchSub(p, v, variants)
  }

  /** A list of component patterns against the subject's components from j on. */
  function MatchComps(ps: seq<Pattern>, vs: seq<Value>, compTypes: seq<string>, variants: Variants): Option<Bindings>
    requires |ps| == |vs| == |compTypes|
  {
    if ps == [] then Some([]) else
    match (MatchComp(ps[0], vs[0], compTypes[0], variants), MatchComps(ps[1..], vs[1..], compTypes[1..], variants))
    case (Some(b), Some(bs)) => Some(b + bs)
    case _ => None
  }

  /** What is matched: one value, or the components of a tuple literal. */
  datatype SubjectShape = Single | Tuple(compTypes: seq<string>)

  function Width(s: SubjectShape): nat { if s.Single? then 1 else |s.compTypes| }

  function MatchArm(p: Pattern, vs: seq<Value>, s: SubjectShape, variants: Variants): Option<Bindings>
    requires |vs| == Width(s)
  {
    match s
    case Single => MatchComp(p, vs[0], "", variants)
    case Tuple(compTypes) =>
      match p
      case Wildcard => Some([])
      case ProductPat(sub) => if |sub| == |vs| then MatchComps(sub, vs, compTypes, variants) else None
      case _ => None
  }

  /** The first arm that matches, with its bindings. */
  function FirstMatch(ps: seq<Pattern>, vs: seq<Value>, s: SubjectShape, variants: Variants): (r: Option<(nat, Bindings)>)
    requires |vs| == Width(s)
    ensures r.Some? ==> r.value.0 < |ps|
  {
    if ps == [] then None else
    match MatchArm(ps[0], vs, s, variants)
    case Some(b) => Some((0, b))
    case None =>
      match FirstMatch(ps[1..], vs, s, variants)
      case Some((i, b)) => Some((i + 1, b))
      case None => None
  }

  // ---------------------------------------------------------------- Go's switch

  datatype Check = TagIs(tag: int) | ValueIs(n: int)
  /** A test of one captured component. */
  datatype Cond = Cond(comp: nat, check: Check)
  type Conj = seq<Cond>

  /** `default`, or a case with alternatives, each a conjunction. */
  datatype Test = Default | Case(alts: seq<Conj>)

  predicate CheckHolds(c: Check, v: Value) {
    match c
    case TagIs(tag) => v.Sum? && v.tag == tag
    case ValueIs(n) => v == Prim(n)
  }

  predicate CondHolds(c: Cond, vs: seq<Value>) { c.comp < |vs| && CheckHolds(c.check, vs[c.comp]) }
  predicate ConjHolds(cs: Conj, vs: seq<Value>) { forall c :: c in cs ==> CondHolds(c, vs) }
  predicate TestHolds(t: Test, vs: seq<Value>) { t.Case? && exists cs :: cs in t.alts && ConjHolds(cs, vs) }

  /** The first case, in textual order, whose test holds. */
  function FirstCase(ts: seq<Test>, vs: seq<Value>): (r: Option<nat>)
    ensures r.Some? ==> r.value < |ts|
  {
    if ts == [] then None
    else if TestHolds(ts[0], vs) then Some(0)
    else match FirstCase(ts[1..], vs) case Some(i) => Some(i + 1) case None => None
  }

  function FirstDefault(ts: seq<Test>): (r: Option<nat>)
    ensures r.Some? ==> r.value < |ts|
  {
    if ts == [] then None
    else if ts[0].Default? then Some(0)
    else match FirstDefault(ts[1..]) case Some(i) => Some(i + 1) case None => None
  }

  /** "Switch statements", The Go Programming Language Specification: a default clause
      is chosen only when no case is, wherever it stands. */
  function GoPick(ts: seq<Test>, vs: seq<Value>): (r: Option<nat>)
    ensures r.Some? ==> r.value < |ts|
  {
    if FirstCase(ts, vs).Some? then FirstCase(ts, vs) else FirstDefault(ts)
  }

  // ---------------------------------------------------------------- bindings in Go

  /** A Go expression over the captured components: `t`, `x._i` or `x.<PayloadField>`. */
  datatype Path = Temp(comp: nat) | Component(of: Path, i: nat) | Payload(of: Path, tag: int, i: nat)

  function PathValue(p: Path, vs: seq<Value>): Value {
    match p
    case Temp(j) => if j < |vs| then vs[j] else UNIT
    case Component(q, i) => FieldOf(PathValue(q, vs), i)
    // the payload fields of the other variants hold Go's zero value
    case Payload(q, tag, i) =>
      var v := PathValue(q, vs);
      if v.Sum? && v.tag == tag then FieldOf(v, i) else UNIT
  }

  /** `name := path` */
  datatype Bind = Bind(name: string, path: Path)

  function Bound(bs: seq<Bind>, vs: seq<Value>): Bindings {
    if bs == [] then [] else [(bs[0].name, PathValue(bs[0].path, vs))] + Bound(bs[1..], vs)
  }

  // ---------------------------------------------------------------- the generator's functions

  /** bindSubPattern; None where the generator reports an error. */
  function BindSub(p: Pattern, path: Path): Option<seq<Bind>>
    decreases p, 1
  {
    match p
    case IdentPat(x) => if x == "_" then Some([]) else Some([Bind(x, path)])
    case Wildcard => Some([])
    case ProductPat(sub) => BindComponents(sub, path, 0)
    case _ => None
  }

  function BindComponents(ps: seq<Pattern>, path: Path, i: nat): Option<seq<Bind>>
    decreases ps, 0
  {
    if ps == [] then Some([]) else
    match (BindSub(ps[0], Component(path, i)), BindComponents(ps[1..], path, i + 1))
    case (Some(b), Some(bs)) => Some(b + bs)
    case _ => None
  }

  function BindPayload(ps: seq<Pattern>, path: Path, tag: int, i: nat): Option<seq<Bind>> {
    if ps == [] then Some([]) else
    match (BindSub(ps[0], Payload(path, tag, i)), BindPayload(ps[1..], path, tag, i + 1))
    case (Some(b), Some(bs)) => Some(b + bs)
    case _ => None
  }

  /** emitPayloadBindings. */
  function PayloadBindings(c: string, sub: seq<Pattern>, path: Path, variants: Variants): Option<seq<Bind>> {
    if c in variants && |sub| == variants[c].arity then BindPayload(sub, path, variants[c].tag, 0) else None
  }

  /** caseValue: the constant of a `case` of a single-subject switch. */
  function CaseValue(p: Pattern, variants: Variants): Option<Check> {
    match p
    case LitPat(n) => Some(ValueIs(n))
    case VariantPat(c, _) => if c in variants then Some(TagIs(variants[c].tag)) else None
    case IdentPat(x) => if x in variants then Some(TagIs(variants[x].tag)) else None
    case _ => None
  }

  function CaseValues(atoms: seq<Pattern>, variants: Variants): Option<seq<Conj>> {
    if atoms == [] then Some([]) else
    match (CaseValue(atoms[0], variants), CaseValues(atoms[1..], variants))
    case (Some(c), Some(cs)) => Some([[Cond(0, c)]] + cs)
    case _ => None
  }

  /** emitMatchArmHeader. */
  function SingleTest(p: Pattern, variants: Variants): Option<Test> {
    match p
    case Wildcard => Some(Default)
    case UnitPat => Some(Default)
    case AltPat(atoms) =>
      (match CaseValues(atoms, variants) case Some(alts) => Some(Case(alts)) case None => None)
    case _ =>
      match CaseValue(p, variants) case Some(c) => Some(Case([[Cond(0, c)]])) case None => None
  }

  /** The bindings at the head of a single-subject arm. */
  function SingleBinds(p: Pattern, variants: Variants): Option<seq<Bind>> {
    if p.VariantPat? && p.sub != [] then PayloadBindings(p.name, p.sub, Temp(0), variants) else Some([])
  }

  /** classifyPattern: does the pattern, or an atom of it, switch on the tag, on the value? */
  predicate SwitchesOnTag(p: Pattern, variants: Variants) {
    match p
    case VariantPat(_, _) => true
    case IdentPat(x) => x in variants
    case AltPat(atoms) => exists a :: a in atoms && (a.VariantPat? || (a.IdentPat? && a.name in variants))
    case _ => false
  }

  predicate SwitchesOnValue(p: Pattern) {
    match p
    case LitPat(_) => true
    case AltPat(atoms) => exists a :: a in atoms && a.LitPat?
    case _ => false
  }

  /** compCond: the test a component imposes, Some(None) when it imposes none. */
  function CompCond(p: Pattern, comp: nat, compType: string, variants: Variants): Option<Option<Cond>> {
    match p
    case Wildcard => Some(None)
    case IdentPat(x) =>
      if IsConstructor(x, compType, variants) then Some(Some(Cond(comp, TagIs(variants[x].tag)))) else Some(None)
    case VariantPat(c, _) =>
      if c in variants && (compType == "" || variants[c].owner == compType)
      then Some(Some(Cond(comp, TagIs(variants[c].tag)))) else None
    case LitPat(n) => Some(Some(Cond(comp, ValueIs(n))))
    case _ => None
  }

  /** bindCompPattern. */
  function CompBinds(p: Pattern, comp: nat, compType: string, variants: Variants): Option<seq<Bind>> {
    match p
    case VariantPat(c, sub) => if sub == [] then Some([]) else PayloadBindings(c, sub, Temp(comp), variants)
    case IdentPat(x) => if IsConstructor(x, compType, variants) then Some([]) else BindSub(p, Temp(comp))
    case _ => Some([])
  }

  /** tupleArmConds, from component j on. */
  function TupleConds(ps: seq<Pattern>, j: nat, compTypes: seq<string>, variants: Variants): Option<Conj>
    requires j + |ps| == |compTypes|
    decreases |ps|
  {
    if ps == [] then Some([]) else
    match (CompCond(ps[0], j, compTypes[j], variants), TupleConds(ps[1..], j + 1, compTypes, variants))
    case (Some(None), Some(cs)) => Some(cs)
    case (Some(Some(c)), Some(cs)) => Some([c] + cs)
    case _ => None
  }

  /** emitTupleArmBindings, from component j on. */
  function TupleBinds(ps: seq<Pattern>, j: nat, compTypes: seq<string>, variants: Variants): Option<seq<Bind>>
    requires j + |ps| == |compTypes|
    decreases |ps|
  {
    if ps == [] then Some([]) else
    match (CompBinds(ps[0], j, compTypes[j], variants), TupleBinds(ps[1..], j + 1, compTypes, variants))
    case (Some(b), Some(bs)) => Some(b + bs)
    case _ => None
  }

  /** The header and the bindings of one arm: emitMatchSwitch and emitTupleMatchSwitch. */
  function LowerArm(p: Pattern, s: SubjectShape, variants: Variants): Option<(Test, seq<Bind>)> {
    match s
    case Single =>
      (match (SingleTest(p, variants), SingleBinds(p, variants))
       case (Some(t), Some(bs)) => Some((t, bs))
       case _ => None)
    case Tuple(compTypes) =>
      match p
      case Wildcard => Some((Default, []))
      case ProductPat(sub) =>
        if |sub| != |compTypes| then None else
        (match (TupleConds(sub, 0, compTypes, variants), TupleBinds(sub, 0, compTypes, variants))
         case (Some(conds), Some(bs)) => Some((if conds == [] then Default else Case([conds]), bs))
         case _ => None)
      case _ => None
  }

  function LowerArms(ps: seq<Pattern>, s: SubjectShape, variants: Variants): (r: Option<seq<(Test, seq<Bind>)>>)
    ensures r.Some? ==> |r.value| == |ps|
  {
    if ps == [] then Some([]) else
    match (LowerArm(ps[0], s, variants), LowerArms(ps[1..], s, variants))
    case (Some(a), Some(as_)) => Some([a] + as_)
    case _ => None
  }

  /** The whole header: one switch form per match. */
  function LowerPatterns(ps: seq<Pattern>, s: SubjectShape, variants: Variants): (r: Option<seq<(Test, seq<Bind>)>>)
    ensures r.Some? ==> |r.value| == |ps|
  {
    if s.Single? && (exists p :: p in ps && SwitchesOnTag(p, variants)) && (exists p :: p in ps && SwitchesOnValue(p))
    then None else LowerArms(ps, s, variants)
  }

  /** tupleArmIsCatchAll. */
  predicate TupleArmIsCatchAll(ps: seq<Pattern>, j: nat, compTypes: seq<string>, variants: Variants)
    requires j + |ps| == |compTypes|
    decreases |ps|
  {
    if ps == [] then true else
    match ps[0]
    case Wildcard => TupleArmIsCatchAll(ps[1..], j + 1, compTypes, variants)
    case IdentPat(x) =>
      if IsConstructor(x, compTypes[j], variants) then false
      else TupleArmIsCatchAll(ps[1..], j + 1, compTypes, variants)
    case _ => false
  }

  /** matchEmitsDefault, for one arm. */
  predicate ArmEmitsDefault(p: Pattern, s: SubjectShape, variants: Variants) {
    match p
    case Wildcard => true
    case UnitPat => true
    case ProductPat(sub) =>
      s.Tuple? && |sub| == |s.compTypes| && TupleArmIsCatchAll(sub, 0, s.compTypes, variants)
    case _ => false
  }

  predicate MatchEmitsDefault(ps: seq<Pattern>, s: SubjectShape, variants: Variants) {
    exists p :: p in ps && ArmEmitsDefault(p, s, variants)
  }

  function Tests(arms: seq<(Test, seq<Bind>)>): seq<Test> {
    seq(|arms|, i requires 0 <= i < |arms| => arms[i].0)
  }
}
