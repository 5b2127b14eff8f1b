/**
 Statement lowering (internal/codegen/stmt.go, tail.go, control_flow.go, match.go,
 labeled_break.go, catch.go) and the divergence predicate of internal/ast/diverge.go:
 Aril statements with their meaning, the Go statements they become with theirs, and
 the lowering.

 Expressions that emitExpr writes alone are Atoms, evaluated by the world. Labels and
 temps, numbered by counters in the generator, carry the identity `at` of the node
 they belong to.
 */
module Lowering {
  import opened Wrappers
  import opened Patterns

  // ---------------------------------------------------------------- Aril

  datatype IfKind = IfStmt | IfExpr

  /** A callee as it is spelled: `name`, or `receiver.name`. */
  datatype Callee = Ident(name: string) | Member(receiver: string, name: string)

  datatype Subject = One(id: int) | TupleLit(ids: seq<int>, compTypes: seq<string>)

  datatype Node =
    | Atom(id: int)
    | Call(id: int, callee: Callee)
    | Name(x: string)
    | Paren(inner: Node)
    | Return(value: Option<Node>)
    | Break
    | Continue
    | Block(stmts: Body)
    | If(kind: IfKind, cond: int, thn: Node, els: Option<Node>)
    | Match(on: Subject, arms: seq<Arm>)
    | Catch(at: int, subject: int, name: string, handler: Node)
    | Let(x: string, init: Node)
    | Loop(at: int, head: int, name: string, body: Node)
    | Select(id: int, cases: seq<Node>)

  datatype Arm = Arm(pattern: Pattern, body: Node)

  /** The statements of a block and its trailing expression, if any. */
  datatype Body = End | Value(e: Node) | Stmt(s: Node, rest: Body)

  function Ids(s: Subject): seq<int> { match s case One(id) => [id] case TupleLit(ids, _) => ids }

  /** A tuple literal has as many component types as components. */
  function Shape(s: Subject): SubjectShape {
    match s
    case One(_) => Single
    case TupleLit(ids, compTypes) => Tuple(if |compTypes| == |ids| then compTypes else seq(|ids|, _ => ""))
  }

  // ---------------------------------------------------------------- meaning

  type Env = map<string, Value>
  datatype Event = Event(id: int, env: Env)
  type Trace = seq<Event>

  /** `eval` is None for a panic; `next` is None for a panic and Some(None) at the end of a
      loop; `choose` is the case a `select` takes. All of them see the whole history. */
  datatype World = World(
    eval: (int, Env, Trace) -> Option<Value>,
    next: (int, Env, Trace) -> Option<Option<Value>>,
    choose: (int, Env, Trace) -> nat)

  datatype Res =
    | Norm(v: Value, tr: Trace)
    | Ret(v: Value, tr: Trace)
    | Brk(tr: Trace)
    | Cont(tr: Trace)
    | Panicked(tr: Trace)
    | Stuck(tr: Trace)                                // in tail position no arm fits, and there is no value
    | OutOfFuel

  predicate Truthy(v: Value) { v == Prim(1) }

  function Lookup(env: Env, x: string): Value { if x in env then env[x] else UNIT }

  function Bind1(env: Env, x: string, v: Value): Env { if x == "_" then env else env[x := v] }

  function Extend(env: Env, bs: Bindings): Env
    decreases |bs|
  {
    if bs == [] then env else Extend(env[bs[0].0 := bs[0].1], bs[1..])
  }

  function EvalAtom(id: int, env: Env, w: World, tr: Trace): Res {
    var tr' := tr + [Event(id, env)];
    match w.eval(id, env, tr)
    case Some(v) => Norm(v, tr')
    case None => Panicked(tr')
  }

  /** The components of a subject, in order: the values, or None for a panic. */
  function EvalAtoms(ids: seq<int>, env: Env, w: World, tr: Trace): (Option<seq<Value>>, Trace) {
    if ids == [] then (Some([]), tr) else
    match EvalAtom(ids[0], env, w, tr)
    case Norm(v, tr') =>
      (match EvalAtoms(ids[1..], env, w, tr')
       case (Some(vs), tr'') => (Some([v] + vs), tr'')
       case (None, tr'') => (None, tr''))
    case stop => (None, tr + [Event(ids[0], env)])
  }

  lemma EvalAtomsLength(ids: seq<int>, env: Env, w: World, tr: Trace)
    ensures var (vs, _) := EvalAtoms(ids, env, w, tr); vs.Some? ==> |vs.value| == |ids|
  {
  }

  function PatternsOf(arms: seq<Arm>): seq<Pattern> { seq(|arms|, i requires 0 <= i < |arms| => arms[i].pattern) }

  function ErrorOf(v: Value): Value { FieldOf(v, 0) }
  predicate IsOk(v: Value) { v.Sum? && v.tag == 0 }
  predicate IsErr(v: Value) { v.Sum? && v.tag == 1 }

  /** `<tmp>.V`: the payload of Ok, Go's zero value otherwise. */
  function PayloadV(v: Value): Value { if IsOk(v) then FieldOf(v, 0) else UNIT }

  /** The two callees recognised by their spelling. */
  predicate Recognised(c: Callee) { c == Ident("panic") || c == Member("os", "exit") }

  /** The name that is looked up to find the callee. */
  function Root(c: Callee): string { match c case Ident(x) => x case Member(x, _) => x }

  /** A call of the predeclared `panic`, or of exit of the package os, does not return; any
      other call is up to the world, also where a variable of that name is in scope. */
  function RunCall(id: int, c: Callee, env: Env, w: World, tr: Trace): Res {
    if Recognised(c) && Root(c) !in env then Panicked(tr + [Event(id, env)]) else EvalAtom(id, env, w, tr)
  }

  function Exec(n: Node, env: Env, variants: Variants, w: World, fuel: nat, tr: Trace): Res
    decreases fuel, n, 1
  {
    match n
    case Atom(id) => EvalAtom(id, env, w, tr)
    case Call(id, c) => RunCall(id, c, env, w, tr)
    case Name(x) => Norm(Lookup(env, x), tr)
    case Paren(inner) => Exec(inner, env, variants, w, fuel, tr)
    case Return(None) => Ret(UNIT, tr)
    case Return(Some(v)) => AsReturn(Exec(v, env, variants, w, fuel, tr))
    case Break => Brk(tr)
    case Continue => Cont(tr)
    case Block(body) => ExecBody(body, env, variants, w, fuel, tr)
    case If(_, cond, thn, els) =>
      (match EvalAtom(cond, env, w, tr)
       case Norm(v, tr') =>
         if Truthy(v) then Exec(thn, env, variants, w, fuel, tr')
         else if els.Some? then Exec(els.value, env, variants, w, fuel, tr')
         else Norm(UNIT, tr')
       case stop => stop)
    case Match(subject, arms) =>
      EvalAtomsLength(Ids(subject), env, w, tr);
      (match EvalAtoms(Ids(subject), env, w, tr)
       case (None, tr') => Panicked(tr')
       case (Some(vs), tr') =>
         match FirstMatch(PatternsOf(arms), vs, Shape(subject), variants)
         case Some((i, bs)) => Exec(arms[i].body, Extend(env, bs), variants, w, fuel, tr')
         case None => Norm(UNIT, tr'))                // no arm fits: none runs
    case Catch(_, subject, name, handler) =>
      (match EvalAtom(subject, env, w, tr)
       case Norm(v, tr') =>
         if IsErr(v) then Exec(handler, Bind1(env, name, ErrorOf(v)), variants, w, fuel, tr')
         else Norm(PayloadV(v), tr')
       case stop => stop)
    case Let(_, value) => Exec(value, env, variants, w, fuel, tr)
    case Loop(_, _, _, _) => ExecLoop(n, env, variants, w, fuel, tr)
    case Select(id, cases) =>
      if cases == [] then OutOfFuel                   // blocks for ever
      else Exec(cases[w.choose(id, env, tr) % |cases|], env, variants, w, fuel, tr + [Event(id, env)])
  }

  function AsReturn(r: Res): Res { if r.Norm? then Ret(r.v, r.tr) else r }

  function ExecBody(b: Body, env: Env, variants: Variants, w: World, fuel: nat, tr: Trace): Res
    decreases fuel, b, 0
  {
    match b
    case End => Norm(UNIT, tr)
    case Value(e) => Exec(e, env, variants, w, fuel, tr)
    case Stmt(s, rest) =>
      match Exec(s, env, variants, w, fuel, tr)
      case Norm(v, tr') => ExecBody(rest, if s.Let? then env[s.x := v] else env, variants, w, fuel, tr')
      case stop => stop
  }

  function ExecLoop(n: Node, env: Env, variants: Variants, w: World, fuel: nat, tr: Trace): Res
    requires n.Loop?
    decreases fuel, n, 0
  {
    if fuel == 0 then OutOfFuel else
    var tr' := tr + [Event(n.head, env)];
    match w.next(n.head, env, tr)
    case None => Panicked(tr')
    case Some(None) => Norm(UNIT, tr')
    case Some(Some(v)) =>
      match Exec(n.body, Bind1(env, n.name, v), variants, w, fuel - 1, tr')
      case Norm(_, tr'') => ExecLoop(n, env, variants, w, fuel - 1, tr'')
      case Cont(tr'') => ExecLoop(n, env, variants, w, fuel - 1, tr'')
      case Brk(tr'') => Norm(UNIT, tr'')
      case stop => stop
  }

  /** In tail position the value is wanted: where no arm of a match fits, there is none. */
  function ExecTail(e: Node, env: Env, variants: Variants, w: World, fuel: nat, tr: Trace): Res
    decreases e, 1
  {
    match e
    case Paren(inner) => ExecTail(inner, env, variants, w, fuel, tr)
    case Block(body) => ExecTailBody(body, env, variants, w, fuel, tr)
    case If(_, cond, thn, els) =>
      (match EvalAtom(cond, env, w, tr)
       case Norm(v, tr') =>
         if Truthy(v) then ExecTail(thn, env, variants, w, fuel, tr')
         else if els.Some? then ExecTail(els.value, env, variants, w, fuel, tr')
         else Norm(UNIT, tr')
       case stop => stop)
    case Match(subject, arms) =>
      EvalAtomsLength(Ids(subject), env, w, tr);
      (match EvalAtoms(Ids(subject), env, w, tr)
       case (None, tr') => Panicked(tr')
       case (Some(vs), tr') =>
         match FirstMatch(PatternsOf(arms), vs, Shape(subject), variants)
         case Some((i, bs)) => ExecTail(arms[i].body, Extend(env, bs), variants, w, fuel, tr')
         case None => Stuck(tr'))
    case Catch(_, subject, name, handler) =>
      (match EvalAtom(subject, env, w, tr)
       case Norm(v, tr') =>
         if IsErr(v) then ExecTail(handler, Bind1(env, name, ErrorOf(v)), variants, w, fuel, tr')
         else if IsOk(v) then Norm(PayloadV(v), tr')
         else Stuck(tr')
       case stop => stop)
    case _ => Exec(e, env, variants, w, fuel, tr)
  }

  function ExecTailBody(b: Body, env: Env, variants: Variants, w: World, fuel: nat, tr: Trace): Res
    decreases b, 0
  {
    match b
    case End => Norm(UNIT, tr)
    case Value(e) => ExecTail(e, env, variants, w, fuel, tr)
    case Stmt(s, rest) =>
      match Exec(s, env, variants, w, fuel, tr)
      case Norm(v, tr') => ExecTailBody(rest, if s.Let? then env[s.x := v] else env, variants, w, fuel, tr')
      case stop => stop
  }

  // ---------------------------------------------------------------- divergence (internal/ast/diverge.go)

  predicate BlockDiverges(b: Body)
    decreases b, 0
  {
    match b
    case End => false
    case Value(e) => ExprDiverges(e)
    case Stmt(s, End) => StmtDiverges(s)
    case Stmt(_, rest) => BlockDiverges(rest)
  }

  predicate ExprDiverges(e: Node)
    decreases e, 1
  {
    match e
    case Paren(inner) => ExprDiverges(inner)
    case Return(_) => true
    case Break => true
    case Continue => true
    case Call(_, c) => Recognised(c)
    case Block(body) => BlockDiverges(body)
    case _ => false
  }

  predicate StmtDiverges(s: Node)
    decreases s, 2
  {
    match s
    case If(IfStmt, _, thn, els) =>
      els.Some? && thn.Block? && BlockDiverges(thn.stmts) &&
      (match els.value
       case Block(body) => BlockDiverges(body)
       case If(IfStmt, _, _, _) => StmtDiverges(els.value)
       case _ => false)
    case Let(_, _) => false
    case Loop(_, _, _, _) => false
    case Select(_, _) => false
    case _ => ExprDiverges(s)
  }

  // ---------------------------------------------------------------- Go

  datatype GoValue = Void | AtomValue(id: int) | CallValue(id: int, callee: Callee) | NameValue(x: string) | PayloadOf(at: int)

  datatype GoStmt =
    | GoAtom(id: int)
    | GoCall(id: int, callee: Callee)
    | GoName(x: string)
    | GoReturn(value: GoValue)
    | GoBreak(loopLabel: Option<int>)
    | GoContinue
    | GoBlock(body: seq<GoStmt>)
    | GoIf(cond: int, thn: seq<GoStmt>, els: seq<GoStmt>)
    | GoSwitch(ids: seq<int>, cases: seq<GoCase>)     // the components captured in temps, then `switch`
    | GoSelect(id: int, bodies: seq<GoBody>)
    | GoFor(loopLabel: Option<int>, head: int, name: string, body: seq<GoStmt>)
    | GoVar(x: string, value: GoValue)
    | GoCatch(at: int, subject: int, name: string, handler: seq<GoStmt>)  // `t := s; if t.Tag == 1 { e := t.E; … }`
    | GoUnreachable                                   // `panic("unreachable: …")`

  datatype GoBody = GoBody(code: seq<GoStmt>)
  datatype GoCase = GoCase(test: Test, binds: seq<Bind>, body: seq<GoStmt>)

  type Temps = map<int, Value>

  datatype GoRes =
    | GoNorm(env: Env, temps: Temps, tr: Trace)
    | GoRet(v: Value, tr: Trace)
    | GoBrk(loopLabel: Option<int>, tr: Trace)
    | GoCont(tr: Trace)
    | GoPanicked(tr: Trace)
    | GoUnreached(tr: Trace)                          // the unreachable guard ran
    | GoOutOfFuel

  function GoEval(g: GoValue, env: Env, temps: Temps, w: World, tr: Trace): Res {
    match g
    case Void => Norm(UNIT, tr)
    case AtomValue(id) => EvalAtom(id, env, w, tr)
    case CallValue(id, c) => RunCall(id, c, env, w, tr)
    case NameValue(x) => Norm(Lookup(env, x), tr)
    case PayloadOf(at) => Norm(if at in temps then PayloadV(temps[at]) else UNIT, tr)
  }

  function TestsOf(cases: seq<GoCase>): seq<Test> { seq(|cases|, i requires 0 <= i < |cases| => cases[i].test) }

  function GoExec(ss: seq<GoStmt>, env: Env, temps: Temps, w: World, fuel: nat, tr: Trace): GoRes
    decreases fuel, ss, 0
  {
    if ss == [] then GoNorm(env, temps, tr) else
    match GoStep(ss[0], env, temps, w, fuel, tr)
    case GoNorm(env', temps', tr') => GoExec(ss[1..], env', temps', w, fuel, tr')
    case stop => stop
  }

  /** Leaving a block: its variables go out of scope. */
  function Leave(r: GoRes, env: Env, temps: Temps): GoRes {
    if r.GoNorm? then GoNorm(env, temps, r.tr) else r
  }

  /** "Break statements", The Go Programming Language Specification: a bare break leaves the
      innermost for, switch or select. */
  function LeaveSwitch(r: GoRes, env: Env, temps: Temps): GoRes {
    if r.GoNorm? || (r.GoBrk? && r.loopLabel == None) then GoNorm(env, temps, r.tr) else r
  }

  function GoStep(s: GoStmt, env: Env, temps: Temps, w: World, fuel: nat, tr: Trace): GoRes
    decreases fuel, s, 1
  {
    match s
    case GoAtom(id) =>
      (match EvalAtom(id, env, w, tr) case Norm(_, tr') => GoNorm(env, temps, tr') case stop => GoPanicked(stop.tr))
    case GoCall(id, c) =>
      (match RunCall(id, c, env, w, tr) case Norm(_, tr') => GoNorm(env, temps, tr') case stop => GoPanicked(stop.tr))
    case GoName(_) => GoNorm(env, temps, tr)
    case GoReturn(g) =>
      (match GoEval(g, env, temps, w, tr) case Norm(v, tr') => GoRet(v, tr') case stop => GoPanicked(stop.tr))
    case GoBreak(loopLabel) => GoBrk(loopLabel, tr)
    case GoContinue => GoCont(tr)
    case GoBlock(body) => Leave(GoExec(body, env, temps, w, fuel, tr), env, temps)
    case GoIf(cond, thn, els) =>
      (match EvalAtom(cond, env, w, tr)
       case Norm(v, tr') => Leave(GoExec(if Truthy(v) then thn else els, env, temps, w, fuel, tr'), env, temps)
       case stop => GoPanicked(stop.tr))
    case GoSwitch(ids, cases) =>
      (match EvalAtoms(ids, env, w, tr)
       case (None, tr') => GoPanicked(tr')
       case (Some(vs), tr') =>
         match GoPick(TestsOf(cases), vs)
         case None => GoNorm(env, temps, tr')
         case Some(i) =>
           LeaveSwitch(GoExec(cases[i].body, Extend(env, Bound(cases[i].binds, vs)), temps, w, fuel, tr'), env, temps))
    case GoSelect(id, bodies) =>
      if bodies == [] then GoOutOfFuel else
      LeaveSwitch(GoExec(bodies[w.choose(id, env, tr) % |bodies|].code, env, temps, w, fuel, tr + [Event(id, env)]), env, temps)
    case GoFor(_, _, _, _) => GoLoop(s, env, temps, w, fuel, tr)
    case GoVar(x, g) =>
      (match GoEval(g, env, temps, w, tr) case Norm(v, tr') => GoNorm(env[x := v], temps, tr') case stop => GoPanicked(stop.tr))
    case GoCatch(at, subject, name, handler) =>
      (match EvalAtom(subject, env, w, tr)
       case Norm(v, tr') =>
         var temps' := temps[at := v];
         if IsErr(v) then Leave(GoExec(handler, Bind1(env, name, ErrorOf(v)), temps', w, fuel, tr'), env, temps')
         else GoNorm(env, temps', tr')
       case stop => GoPanicked(stop.tr))
    case GoUnreachable => GoUnreached(tr)
  }

  function GoLoop(s: GoStmt, env: Env, temps: Temps, w: World, fuel: nat, tr: Trace): GoRes
    requires s.GoFor?
    decreases fuel, s, 0
  {
    if fuel == 0 then GoOutOfFuel else
    var tr' := tr + [Event(s.head, env)];
    match w.next(s.head, env, tr)
    case None => GoPanicked(tr')
    case Some(None) => GoNorm(env, temps, tr')
    case Some(Some(v)) =>
      match GoExec(s.body, Bind1(env, s.name, v), temps, w, fuel - 1, tr')
      case GoNorm(_, _, tr'') => GoLoop(s, env, temps, w, fuel - 1, tr'')
      case GoCont(tr'') => GoLoop(s, env, temps, w, fuel - 1, tr'')
      case GoBrk(loopLabel, tr'') =>
        if loopLabel == None || loopLabel == s.loopLabel then GoNorm(env, temps, tr'') else GoBrk(loopLabel, tr'')
      case stop => stop
  }

  // ---------------------------------------------------------------- the break scan (labeled_break.go)

  /** scanStmtForCapturedBreak, scanElseForCapturedBreak and scanExprForCapturedBreak. */
  predicate Scan(n: Node, inSwitch: bool)
    decreases n, 1
  {
    match n
    case Break => inSwitch
    case Match(_, arms) => exists i :: 0 <= i < |arms| && Scan(arms[i].body, true)
    // a desugared catch is a match to the scanner
    case Catch(_, _, _, handler) => Scan(handler, true)
    case If(IfStmt, _, thn, els) =>
      Scan(thn, inSwitch) ||
      (els.Some? && (els.value.Block? || (els.value.If? && els.value.kind.IfStmt?)) && Scan(els.value, inSwitch))
    // an else-if of an expression is neither an IfStmt nor a Block
    case If(IfExpr, _, thn, els) =>
      Scan(thn, inSwitch) || (els.Some? && els.value.Block? && Scan(els.value, inSwitch))
    case Block(body) => ScanBody(body, inSwitch)
    case Select(_, cases) => exists i :: 0 <= i < |cases| && Scan(cases[i], true)
    case _ => false
  }

  predicate ScanBody(b: Body, inSwitch: bool)
    decreases b, 0
  {
    match b
    case End => false
    case Value(e) => Scan(e, inSwitch)
    case Stmt(s, rest) => Scan(s, inSwitch) || ScanBody(rest, inSwitch)
  }

  // ---------------------------------------------------------------- lowering

  /** The innermost loop frame: its loopLabel, and how many switches and selects are open in it. */
  datatype Frame = NoLoop | InLoop(loopLabel: Option<int>, switchDepth: nat)

  /** enterSwitch. */
  function Deeper(f: Frame): Frame { if f.InLoop? then f.(switchDepth := f.switchDepth + 1) else f }

  /** breakTarget. */
  function BreakTarget(f: Frame): Option<int> {
    if f.InLoop? && f.switchDepth > 0 && f.loopLabel.Some? then f.loopLabel else None
  }

  /** An expression that emitExpr writes in place. */
  function SimpleValue(n: Node): Option<GoValue> {
    match n
    case Atom(id) => Some(AtomValue(id))
    case Call(id, c) => Some(CallValue(id, c))
    case Name(x) => Some(NameValue(x))
    case Paren(inner) => SimpleValue(inner)
    case _ => None
  }

  function SimpleStmt(n: Node): Option<seq<GoStmt>> {
    match n
    case Atom(id) => Some([GoAtom(id)])
    case Name(x) => Some([GoName(x)])
    case Call(id, c) => Some([GoCall(id, c)])
    case Paren(inner) => SimpleStmt(inner)
    case _ => None
  }

  function Then(a: Option<seq<GoStmt>>, b: Option<seq<GoStmt>>): Option<seq<GoStmt>> {
    if a.Some? && b.Some? then Some(a.value + b.value) else None
  }

  /** emitStmt, in the loop frame f. */
  function Lower(n: Node, f: Frame, variants: Variants): Option<seq<GoStmt>>
    decreases n, 2
  {
    match n
    case Return(None) => Some([GoReturn(Void)])
    case Return(Some(v)) =>
      if v.Catch? then Then(LowerCatch(v, f, variants), Some([GoReturn(PayloadOf(v.at))])) else
      (match SimpleValue(v) case Some(g) => Some([GoReturn(g)]) case None => None)
    case Catch(_, _, _, _) => LowerCatch(n, f, variants)
    case Break => Some([GoBreak(BreakTarget(f))])
    case Continue => Some([GoContinue])
    case Match(subject, arms) =>
      (match LowerPatterns(PatternsOf(arms), Shape(subject), variants)
       case None => None
       case Some(heads) =>
         match LowerArmBodies(n, 0, heads, Deeper(f), variants)
         case Some(cases) => Some([GoSwitch(Ids(subject), cases)])
         case None => None)
    case Block(body) =>
      (match LowerBody(body, f, variants) case Some(ss) => Some([GoBlock(ss)]) case None => None)
    case If(kind, cond, thn, els) =>
      if !thn.Block? then None else
      (match (LowerBody(thn.stmts, f, variants), LowerElse(kind, els, f, variants))
       case (Some(a), Some(b)) => Some([GoIf(cond, a, b)])
       case _ => None)
    case Let(x, value) =>
      if value.Catch? then Then(LowerCatch(value, f, variants), Some([GoVar(x, PayloadOf(value.at))])) else
      (match SimpleValue(value) case Some(g) => Some([GoVar(x, g)]) case None => None)
    case Loop(at, head, name, body) =>
      if !body.Block? then None else
      var loopLabel := if Scan(body, false) then Some(at) else None;
      (match LowerBody(body.stmts, InLoop(loopLabel, 0), variants)
       case Some(ss) => Some([GoFor(loopLabel, head, name, ss)])
       case None => None)
    case Select(id, cases) =>
      (match LowerCases(n, 0, Deeper(f), variants) case Some(bs) => Some([GoSelect(id, bs)]) case None => None)
    case _ => SimpleStmt(n)
  }

  function LowerElse(kind: IfKind, els: Option<Node>, f: Frame, variants: Variants): Option<seq<GoStmt>>
    decreases els, 0
  {
    match els
    case None => Some([])
    case Some(e) =>
      match e
      case Block(body) => LowerBody(body, f, variants)
      case If(k, _, _, _) => if k == kind then Lower(e, f, variants) else None
      case _ => None
  }

  /** emitBlockBody. */
  function LowerBody(b: Body, f: Frame, variants: Variants): Option<seq<GoStmt>>
    decreases b, 0
  {
    match b
    case End => Some([])
    case Value(e) => Lower(e, f, variants)
    case Stmt(s, rest) => Then(Lower(s, f, variants), LowerBody(rest, f, variants))
  }

  /** emitCatchPreamble: the handler runs in the frame of the statement. */
  function LowerCatch(n: Node, f: Frame, variants: Variants): Option<seq<GoStmt>>
    requires n.Catch?
    decreases n, 0
  {
    if !n.handler.Block? then None else
    match LowerBody(n.handler.stmts, f, variants)
    case Some(ss) => Some([GoCatch(n.at, n.subject, n.name, ss)])
    case None => None
  }

  /** The clauses of arms i, i + 1, … of a match. */
  function LowerArmBodies(n: Node, i: nat, heads: seq<(Test, seq<Bind>)>, f: Frame, variants: Variants): Option<seq<GoCase>>
    requires n.Match? && i <= |n.arms| == |heads|
    decreases n, 1, |heads| - i
  {
    if i == |heads| then Some([]) else
    match (Lower(n.arms[i].body, f, variants), LowerArmBodies(n, i + 1, heads, f, variants))
    case (Some(ss), Some(cs)) => Some([GoCase(heads[i].0, heads[i].1, ss)] + cs)
    case _ => None
  }

  function LowerCases(n: Node, i: nat, f: Frame, variants: Variants): Option<seq<GoBody>>
    requires n.Select? && i <= |n.cases|
    decreases n, 1, |n.cases| - i
  {
    if i == |n.cases| then Some([]) else
    if !n.cases[i].Block? then None else
    match (LowerBody(n.cases[i].stmts, f, variants), LowerCases(n, i + 1, f, variants))
    case (Some(ss), Some(bs)) => Some([GoBody(ss)] + bs)
    case _ => None
  }

  // ---------------------------------------------------------------- tail position (tail.go)

  /** emitTailReturn. */
  function LowerTail(e: Node, f: Frame, variants: Variants): Option<seq<GoStmt>>
    decreases e, 3
  {
    match e
    case Paren(inner) => LowerTail(inner, f, variants)
    case Match(subject, arms) =>
      (match LowerPatterns(PatternsOf(arms), Shape(subject), variants)
       case None => None
       case Some(heads) =>
         match LowerArmTails(e, 0, heads, Deeper(f), variants)
         case Some(cases) =>
           Some([GoSwitch(Ids(subject), cases)] +
                (if MatchEmitsDefault(PatternsOf(arms), Shape(subject), variants) then [] else [GoUnreachable]))
         case None => None)
    // a desugared catch: `Ok(v) => v, Err(e) => { … }`
    case Catch(_, subject, name, handler) =>
      if !handler.Block? then None else
      (match LowerTailBody(handler.stmts, handler.stmts, Deeper(f), variants)
       case Some(ss) => Some([GoSwitch([subject], [CatchOkCase(), CatchErrCase(name, ss)]), GoUnreachable])
       case None => None)
    case If(kind, cond, thn, els) =>
      if kind.IfStmt? || !thn.Block? || els.None? then None else
      (match (LowerTailBody(thn.stmts, thn.stmts, f, variants), LowerTailElse(els.value, f, variants))
       case (Some(a), Some(b)) => Some([GoIf(cond, a, b)])
       case _ => None)
    case Block(body) => LowerTailBody(body, body, f, variants)
    case _ =>
      if ExprDiverges(e) then Lower(e, f, variants)
      else match SimpleValue(e) case Some(g) => Some([GoReturn(g)]) case None => None
  }

  const CATCH_VALUE := "__aril_catch_v"

  function CatchOkCase(): GoCase {
    GoCase(Case([[Cond(0, TagIs(0))]]), [Bind(CATCH_VALUE, Payload(Temp(0), 0, 0))], [GoReturn(NameValue(CATCH_VALUE))])
  }

  function CatchErrCase(name: string, ss: seq<GoStmt>): GoCase {
    GoCase(Case([[Cond(0, TagIs(1))]]), if name == "_" then [] else [Bind(name, Payload(Temp(0), 1, 0))], ss)
  }

  function LowerTailElse(e: Node, f: Frame, variants: Variants): Option<seq<GoStmt>>
    decreases e, 4
  {
    match e
    case Block(body) => LowerTailBody(body, body, f, variants)
    case If(IfExpr, _, _, _) => LowerTail(e, f, variants)
    case _ => None
  }

  /** emitBlockTail; `whole` is the block b is the rest of. */
  function LowerTailBody(b: Body, whole: Body, f: Frame, variants: Variants): Option<seq<GoStmt>>
    decreases b, 0
  {
    match b
    case End => if BlockDiverges(whole) then Some([]) else None
    case Value(e) => LowerTail(e, f, variants)
    case Stmt(s, rest) => Then(Lower(s, f, variants), LowerTailBody(rest, whole, f, variants))
  }

  function LowerArmTails(n: Node, i: nat, heads: seq<(Test, seq<Bind>)>, f: Frame, variants: Variants): Option<seq<GoCase>>
    requires n.Match? && i <= |n.arms| == |heads|
    decreases n, 2, |heads| - i
  {
    if i == |heads| then Some([]) else
    match (LowerTail(n.arms[i].body, f, variants), LowerArmTails(n, i + 1, heads, f, variants))
    case (Some(ss), Some(cs)) => Some([GoCase(heads[i].0, heads[i].1, ss)] + cs)
    case _ => None
  }

  /** emitFuncBody: the statements, then the trailing expression in tail position unless the
      function returns unit. */
  function LowerFuncBody(b: Body, isUnit: bool, variants: Variants): Option<seq<GoStmt>> {
    match b
    case End => Some([])
    case Value(e) => if isUnit then Lower(e, NoLoop, variants) else LowerTail(e, NoLoop, variants)
    case Stmt(s, rest) => Then(Lower(s, NoLoop, variants), LowerFuncBody(rest, isUnit, variants))
  }
}
