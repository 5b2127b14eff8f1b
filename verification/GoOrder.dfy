/**
 What Go promises about the order inside one statement ("Order of evaluation", The Go
 Programming Language Specification): calls and `&&`, `||` happen in lexical order; a name
 or field is read, an element indexed and a division done anywhere between its operands
 and its use; and an assignment has two phases, the store last. A run of a statement is a
 schedule, the list of its nodes in the order in which they happen.
 */
module GoOrder {
  import opened Wrappers
  import opened TryHoisting

  /** The nodes with a moment of their own; literals, temps and pure forms need none. */
  predicate Timed(k: Kind) { MarksImpure(k) || Observes(k) }

  /** The world, and the temps of the preambles before. */
  datatype Context = Context(w: World, temps: Temps)

  /** The nodes that have happened, with their values. */
  type Done = map<int, Value>

  // ---------------------------------------------------------------- a state of a statement

  predicate Has(e: GoExpr, c: Context, m: Done)
    decreases e, 1
  {
    match e
    case GoLiteral(_) => true
    case GoPayload(_) => true
    case GoRead(id) => id in m
    case GoNode(id, k, operands) => if Timed(k) then id in m else HasAll(operands, c, m)
    case GoLogic(id, left, right) =>
      Has(left, c, m) && id in m && (c.w.enters(id, ValueOf(left, c, m)) ==> Has(right, c, m))
    case GoOpaque(id) => id in m
  }

  predicate HasAll(es: seq<GoExpr>, c: Context, m: Done)
    decreases es, 0
  {
    es != [] ==> Has(es[0], c, m) && HasAll(es[1..], c, m)
  }

  function At(m: Done, id: int): Value { if id in m then m[id] else Atom(0) }

  function ValueOf(e: GoExpr, c: Context, m: Done): Value
    decreases e, 1
  {
    match e
    case GoLiteral(id) => c.w.literal(id)
    case GoPayload(tmp) => PayloadOf(ReadTemp(c.temps, tmp))
    case GoRead(id) => At(m, id)
    case GoNode(id, k, operands) => if Timed(k) then At(m, id) else c.w.pure(id, ValuesOf(operands, c, m))
    case GoLogic(id, left, right) =>
      var v := ValueOf(left, c, m);
      if c.w.enters(id, v) then ValueOf(right, c, m) else v
    case GoOpaque(id) => At(m, id)
  }

  function ValuesOf(es: seq<GoExpr>, c: Context, m: Done): seq<Value>
    decreases es, 0
  {
    if es == [] then [] else [ValueOf(es[0], c, m)] + ValuesOf(es[1..], c, m)
  }

  /** All calls and logical operations of e are over. */
  predicate Complete(e: GoExpr, c: Context, m: Done)
    decreases e, 1
  {
    match e
    case GoNode(id, k, operands) => CompleteAll(operands, c, m) && (k.CallNode? ==> id in m)
    case GoLogic(id, left, right) =>
      && Has(e, c, m) && Complete(left, c, m)
      && (c.w.enters(id, ValueOf(left, c, m)) ==> Complete(right, c, m))
    case GoOpaque(id) => id in m
    case _ => true
  }

  predicate CompleteAll(es: seq<GoExpr>, c: Context, m: Done)
    decreases es, 0
  {
    es != [] ==> Complete(es[0], c, m) && CompleteAll(es[1..], c, m)
  }

  // ---------------------------------------------------------------- what may happen next

  /** Node n of e happens, or None when it cannot now. `ok`: all calls and logical operations
      lexically before e are over. */
  function Fire(e: GoExpr, n: int, ok: bool, c: Context, m: Done, tr: Trace): Option<Out<Value>>
    decreases e, 1
  {
    match e
    case GoLiteral(_) => None
    case GoPayload(_) => None
    case GoRead(id) => if n == id && n !in m then Some(Val(c.w.read(id, [], tr), tr)) else None
    case GoNode(id, k, operands) =>
      if n == id && Timed(k) then
        if n !in m && HasAll(operands, c, m) && (k.CallNode? ==> ok)
        then Some(Finish(id, k, ValuesOf(operands, c, m), c.w, tr)) else None
      else FireAll(operands, n, ok, c, m, tr)
    case GoLogic(id, left, right) =>
      if n == id then
        if n !in m && Has(left, c, m) && ok then Some(Val(Atom(0), tr)) else None
      else
        (match Fire(left, n, ok, c, m, tr)
         case Some(o) => Some(o)
         case None =>
           if id in m && c.w.enters(id, ValueOf(left, c, m)) then Fire(right, n, ok, c, m, tr) else None)
    case GoOpaque(id) => if n == id && n !in m && ok then Some(Act(id, [], c.w, tr)) else None
  }

  function FireAll(es: seq<GoExpr>, n: int, ok: bool, c: Context, m: Done, tr: Trace): Option<Out<Value>>
    decreases es, 0
  {
    if es == [] then None else
    match Fire(es[0], n, ok, c, m, tr)
    case Some(o) => Some(o)
    case None => FireAll(es[1..], n, ok && Complete(es[0], c, m), c, m, tr)
  }

  // ---------------------------------------------------------------- runs

  datatype Moment = Going(m: Done, tr: Trace) | Fell(id: int, tr: Trace)

  /** The nodes of the schedule happen one by one; None when one cannot. A panic is the end. */
  function RunAll(es: seq<GoExpr>, sched: seq<int>, ok: bool, c: Context, m: Done, tr: Trace): Option<Moment>
    decreases |sched|
  {
    if sched == [] then Some(Going(m, tr)) else
    match FireAll(es, sched[0], ok, c, m, tr)
    case Some(Val(v, tr')) => RunAll(es, sched[1..], ok, c, m[sched[0] := v], tr')
    case Some(Panic(id, tr')) => if |sched| == 1 then Some(Fell(id, tr')) else None
    case _ => None
  }

  /** How the operands end up under a schedule, None when it is not a whole run. */
  function Ends(es: seq<GoExpr>, sched: seq<int>, c: Context, tr: Trace): Option<Out<seq<Value>>> {
    match RunAll(es, sched, true, c, map[], tr)
    case Some(Going(m, tr')) => if HasAll(es, c, m) then Some(Val(ValuesOf(es, c, m), tr')) else None
    case Some(Fell(id, tr')) => Some(Panic(id, tr'))
    case None => None
  }

  /** An assignment to an element: its operands and the value are phase one. */
  predicate IsStore(gs: seq<GoExpr>) { gs != [] && gs[0].GoNode? && gs[0].kind.ElementPlace? }

  function PhaseOne(gs: seq<GoExpr>): seq<GoExpr> { if IsStore(gs) then gs[0].operands + gs[1..] else gs }

  /** Phase two: the element is found last. */
  function PhaseTwo(gs: seq<GoExpr>, o: Out<seq<Value>>, w: World): Out<seq<Value>> {
    if !IsStore(gs) || !o.Val? || |o.x| < |gs[0].operands| then o else
    var n := |gs[0].operands|;
    match Check(gs[0].id, gs[0].kind, o.x[..n], w, o.tr)
    case Val(v, tr) => Val([v] + o.x[n..], tr)
    case stop => Stopped(stop)
  }

  function StmtEnds(gs: seq<GoExpr>, sched: seq<int>, c: Context, tr: Trace): Option<Out<seq<Value>>> {
    match Ends(PhaseOne(gs), sched, c, tr)
    case Some(o) => Some(PhaseTwo(gs, o, c.w))
    case None => None
  }

  /** A preamble, statement by statement; `plan` has a schedule for each definition. */
  function ExecBy(ss: seq<GoStmt>, plan: seq<seq<int>>, w: World, temps: Temps, tr: Trace): Option<Out<Temps>> {
    if ss == [] then Some(Val(temps, tr)) else
    match ss[0]
    case Define(tmp, e) =>
      if plan == [] then None else
      (match Ends([e], plan[0], Context(w, temps), tr)
       case Some(Val(vs, tr')) =>
         if |vs| == 1 then ExecBy(ss[1..], plan[1..], w, temps[tmp := vs[0]], tr') else None
       case Some(stop) => Some(Stopped(stop))
       case None => None)
    case BailIf(tmp, tag, ret) =>
      var v := ReadTemp(temps, tmp);
      if TagOf(v) == tag then Some(Bail(GoReturnValue(ret, v), tr))
      else ExecBy(ss[1..], plan, w, temps, tr)
  }

  /** The lowered statement, up to its own action. */
  function RunBy(
    pre: seq<GoStmt>, gs: seq<GoExpr>, plan: seq<seq<int>>, sched: seq<int>, w: World, temps: Temps, tr: Trace): Option<Out<seq<Value>>>
  {
    match ExecBy(pre, plan, w, temps, tr)
    case Some(Val(temps', tr')) => StmtEnds(gs, sched, Context(w, temps'), tr')
    case Some(stop) => Some(Stopped(stop))
    case None => None
  }

  // ---------------------------------------------------------------- what floats

  function Calls(e: GoExpr): set<int>
    decreases e, 1
  {
    match e
    case GoNode(id, k, operands) => CallsAll(operands) + if k.CallNode? then {id} else {}
    case GoLogic(_, left, right) => Calls(left) + Calls(right)
    case GoOpaque(id) => {id}
    case _ => {}
  }

  function CallsAll(es: seq<GoExpr>): set<int>
    decreases es, 0
  {
    if es == [] then {} else Calls(es[0]) + CallsAll(es[1..])
  }

  /** The nodes that may panic without being a call. */
  function Fails(e: GoExpr): set<int>
    decreases e, 1
  {
    match e
    case GoNode(id, k, operands) => FailsAll(operands) + if MayFail(k) then {id} else {}
    case GoLogic(_, left, right) => Fails(left) + Fails(right)
    case _ => {}
  }

  function FailsAll(es: seq<GoExpr>): set<int>
    decreases es, 0
  {
    if es == [] then {} else Fails(es[0]) + FailsAll(es[1..])
  }

  /** What happens in lexical order: calls and logical operations. */
  function Orders(e: GoExpr): set<int>
    decreases e, 1
  {
    match e
    case GoNode(id, k, operands) => OrdersAll(operands) + if k.CallNode? then {id} else {}
    case GoLogic(id, left, right) => {id} + Orders(left) + Orders(right)
    case GoOpaque(id) => {id}
    case _ => {}
  }

  function OrdersAll(es: seq<GoExpr>): set<int>
    decreases es, 0
  {
    if es == [] then {} else Orders(es[0]) + OrdersAll(es[1..])
  }

  /** What floats: nodes that may panic, or else reads. */
  predicate Floats(k: Kind, fails: bool) { if fails then MayFail(k) else Observes(k) }

  /** The floating nodes of e that no call or logical operation of e waits for: they may happen
      behind what follows e. */
  function Late(e: GoExpr, fails: bool): set<int>
    decreases e, 1
  {
    match e
    case GoRead(id) => if fails then {} else {id}
    case GoNode(id, k, operands) =>
      if k.CallNode? then {} else LateAll(operands, fails) + if Floats(k, fails) then {id} else {}
    case _ => {}
  }

  function LateAll(es: seq<GoExpr>, fails: bool): set<int>
    decreases es, 0
  {
    if es == [] then {} else Late(es[0], fails) + LateAll(es[1..], fails)
  }

  /** The floating nodes of e that wait for no call or logical operation of e: they may happen
      before what precedes e is over. */
  function Early(e: GoExpr, fails: bool): set<int>
    decreases e, 1
  {
    match e
    case GoRead(id) => if fails then {} else {id}
    case GoNode(id, k, operands) =>
      EarlyAll(operands, fails) + if Floats(k, fails) && OrdersAll(operands) == {} then {id} else {}
    case GoLogic(_, left, _) => Early(left, fails)
    case _ => {}
  }

  function EarlyAll(es: seq<GoExpr>, fails: bool): set<int>
    decreases es, 0
  {
    if es == [] then {} else Early(es[0], fails) + EarlyAll(es[1..], fails)
  }

  /** Nothing can change places that matters: a call and a panic, two panics, or a call and a
      read outside `still`, unless the one waits for the other. */
  predicate Clear(e: GoExpr, still: set<int>)
    decreases e, 1
  {
    match e
    case GoNode(_, _, operands) => ClearAll(operands, still)
    case GoLogic(_, left, right) => Clear(left, still) && Clear(right, still)
    case _ => true
  }

  predicate ClearAll(es: seq<GoExpr>, still: set<int>)
    decreases es, 0
  {
    es != [] ==>
      && Clear(es[0], still) && ClearAll(es[1..], still)
      && (Late(es[0], true) == {} || (CallsAll(es[1..]) == {} && FailsAll(es[1..]) == {}))
      && (EarlyAll(es[1..], true) == {} || (Calls(es[0]) == {} && Fails(es[0]) == {}))
      && (Late(es[0], false) <= still || CallsAll(es[1..]) == {})
      && (EarlyAll(es[1..], false) <= still || Calls(es[0]) == {})
  }

  /** A store besides is not Clear of a call or a panic in its value. */
  predicate ClearStmt(gs: seq<GoExpr>, still: set<int>) {
    && ClearAll(PhaseOne(gs), still)
    && (IsStore(gs) ==> CallsAll(gs[1..]) == {} && FailsAll(gs[1..]) == {})
  }

  // ---------------------------------------------------------------- the source's frames

  /** What is left of e in its frame. */
  function Skeleton(e: Expr): GoExpr
    decreases e, 1
  {
    match e
    case Literal(id) => GoLiteral(id)
    case Read(id) => GoRead(id)
    case Try(_, _) => GoPayload(0)
    case Node(id, k, operands) => GoNode(id, k, Skeletons(operands))
    case Logic(id, left, right) => GoLogic(id, Skeleton(left), Skeleton(right))
    case Opaque(id) => GoOpaque(id)
  }

  function Skeletons(es: seq<Expr>): seq<GoExpr>
    decreases es, 0
  {
    if es == [] then [] else [Skeleton(es[0])] + Skeletons(es[1..])
  }

  /** The same in the frame of every `try` inside e. */
  predicate Framed(e: Expr, still: set<int>)
    decreases e, 1
  {
    match e
    case Try(_, inner) => Clear(Skeleton(inner), still) && Framed(inner, still)
    case Node(_, _, operands) => FramedAll(operands, still)
    case Logic(_, left, _) => Framed(left, still)
    case _ => true
  }

  predicate FramedAll(es: seq<Expr>, still: set<int>)
    decreases es, 0
  {
    es != [] ==> Framed(es[0], still) && FramedAll(es[1..], still)
  }

  /** In no frame of the statement can anything change places that matters. */
  predicate Settled(es: seq<Expr>, still: set<int>) { ClearStmt(Skeletons(es), still) && FramedAll(es, still) }
}
