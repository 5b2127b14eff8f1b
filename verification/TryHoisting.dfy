/**
 `try` hoisting (internal/codegen/try.go): a `try` nested in an expression is
 emitted first, as a statement preamble that may leave the function, and its
 place in the expression is taken by the payload of a temp.

 The expression tree keeps one constructor per case of the walks: every form
 whose case is "walk the operands in order, then maybe mark the frame impure"
 is a Node with its operands in evaluation order.
 */
module TryHoisting {
  import opened Wrappers

  // ---------------------------------------------------------------- syntax

  datatype Kind =
    | CallNode | FieldNode | TupleFieldNode | ArithNode | DivideNode
    | UnaryNode | IndexNode | ParenNode | TupleNode | SliceNode
    | NamePlace | FieldPlace | ElementPlace           // what an assignment stores to

  /** An index and a division may panic. */
  predicate MayFail(k: Kind) { k.IndexNode? || k.DivideNode? || k.ElementPlace? }

  /** Calls have an effect, and a panic is one. */
  predicate MarksImpure(k: Kind) { k.CallNode? || MayFail(k) }

  /** A field is read from an object that others may write to; the other pure forms
      depend on the values of their operands alone. */
  predicate Observes(k: Kind) { k.FieldNode? }

  /** `id` is the identity of the syntax node. */
  datatype Expr =
    | Literal(id: int)
    | Read(id: int)                                   // an identifier
    | Try(id: int, inner: Expr)
    | Node(id: int, kind: Kind, operands: seq<Expr>)
    | Logic(id: int, left: Expr, right: Expr)         // `&&` and `||`
    | Opaque(id: int)                                 // every other form

  /** What the enclosing frame returns, as far as `try` is concerned. */
  datatype ReturnType = NoReturn | ResultReturn | OptionReturn | OtherReturn
  datatype Frame = SpawnBody | FuncBody(ret: ReturnType)

  // ---------------------------------------------------------------- source semantics

  /** A Result or Option value carries a tag; everything else is an Atom. */
  datatype Value = Atom(n: int) | Sum(tag: int, payload: Value, error: Value)

  function TagOf(v: Value): int { if v.Sum? then v.tag else -1 }
  function PayloadOf(v: Value): Value { if v.Sum? then v.payload else v }
  function ErrorOf(v: Value): Value { if v.Sum? then v.error else v }

  /** An effect: the node that acted, on which operand values. */
  datatype Event = Event(id: int, operands: seq<Value>)
  type Trace = seq<Event>

  /** Everything an expression depends on. `act`, `index` and `divide` answer None for
      a panic; `enters` says whether the value on the left lets the right operand of the
      node run (true of `&&`, false of `||`). Reads of names, fields and elements are
      given the history too, so that they may observe earlier effects. */
  datatype World = World(
    literal: int -> Value,
    read: (int, seq<Value>, Trace) -> Value,
    pure: (int, seq<Value>) -> Value,
    divide: (int, seq<Value>) -> Option<Value>,
    index: (int, seq<Value>, Trace) -> Option<Value>,
    act: (int, seq<Value>, Trace) -> Option<Value>,
    enters: (int, Value) -> bool)

  datatype Out<+T> =
    | Val(x: T, tr: Trace)
    | Bail(ret: Value, tr: Trace)
    | Panic(id: int, tr: Trace)                       // the node that panicked

  function Stopped<T, U>(o: Out<T>): Out<U>
    requires !o.Val?
  {
    match o
    case Bail(r, tr) => Bail(r, tr)
    case Panic(id, tr) => Panic(id, tr)
  }

  function BailTag(f: Frame): int {
    if f == FuncBody(OptionReturn) then 0 else 1
  }

  /** What the frame returns when a `try` finds its bail tag in v. */
  function BailValue(f: Frame, v: Value): Value {
    match f
    case SpawnBody => ErrorOf(v)
    case FuncBody(OptionReturn) => Sum(0, Atom(0), Atom(0))
    case FuncBody(_) => Sum(1, Atom(0), ErrorOf(v))
  }

  function Act(id: int, vs: seq<Value>, w: World, tr: Trace): Out<Value> {
    var tr' := tr + [Event(id, vs)];
    match w.act(id, vs, tr)
    case Some(v) => Val(v, tr')
    case None => Panic(id, tr')
  }

  function Check(id: int, k: Kind, vs: seq<Value>, w: World, tr: Trace): Out<Value> {
    match (if k.DivideNode? then w.divide(id, vs) else w.index(id, vs, tr))
    case Some(v) => Val(v, tr)
    case None => Panic(id, tr)
  }

  function Finish(id: int, k: Kind, vs: seq<Value>, w: World, tr: Trace): Out<Value> {
    if k.CallNode? then Act(id, vs, w, tr)
    else if MayFail(k) then Check(id, k, vs, w, tr)
    else if Observes(k) then Val(w.read(id, vs, tr), tr)
    else Val(w.pure(id, vs), tr)
  }

  /** `try`: leave the frame on the bail tag, else go on with the payload. */
  function Unwrap(f: Frame, o: Out<Value>): Out<Value> {
    match o
    case Val(v, tr) => if TagOf(v) == BailTag(f) then Bail(BailValue(f, v), tr) else Val(PayloadOf(v), tr)
    case stop => stop
  }

  /** Left-to-right evaluation. */
  function Eval(e: Expr, f: Frame, w: World, tr: Trace): Out<Value>
    decreases e, 1
  {
    match e
    case Literal(id) => Val(w.literal(id), tr)
    case Read(id) => Val(w.read(id, [], tr), tr)
    case Try(_, inner) => Unwrap(f, Eval(inner, f, w, tr))
    case Node(id, k, operands) =>
      (match EvalAll(operands, f, w, tr)
       case Val(vs, tr') => Finish(id, k, vs, w, tr')
       case stop => Stopped(stop))
    case Logic(id, left, right) =>
      (match Eval(left, f, w, tr)
       case Val(v, tr') => if w.enters(id, v) then Eval(right, f, w, tr') else Val(v, tr')
       case stop => stop)
    case Opaque(id) => Act(id, [], w, tr)
  }

  function EvalAll(es: seq<Expr>, f: Frame, w: World, tr: Trace): Out<seq<Value>>
    decreases es, 0
  {
    if es == [] then Val([], tr) else
    match Eval(es[0], f, w, tr)
    case Val(v, tr') =>
      (match EvalAll(es[1..], f, w, tr')
       case Val(vs, tr'') => Val([v] + vs, tr'')
       case stop => stop)
    case stop => Stopped(stop)
  }

  // ---------------------------------------------------------------- Go target

  datatype GoExpr =
    | GoLiteral(id: int)
    | GoRead(id: int)
    | GoPayload(tmp: int)                             // `<tmp>.V`
    | GoNode(id: int, kind: Kind, operands: seq<GoExpr>)
    | GoLogic(id: int, left: GoExpr, right: GoExpr)
    | GoOpaque(id: int)

  datatype GoReturn = WrapError(tag: int) | WrapNone(tag: int) | RawError

  datatype GoStmt =
    | Define(tmp: int, e: GoExpr)                     // `<tmp> := e`
    | BailIf(tmp: int, tag: int, ret: GoReturn)       // `if <tmp>.Tag == tag { return … }`

  type Temps = map<int, Value>

  function ReadTemp(temps: Temps, tmp: int): Value {
    if tmp in temps then temps[tmp] else Atom(0)
  }

  /** One order of evaluation: the lexical one. GoOrder has the others. */
  function GoEval(e: GoExpr, w: World, temps: Temps, tr: Trace): Out<Value>
    decreases e, 1
  {
    match e
    case GoLiteral(id) => Val(w.literal(id), tr)
    case GoRead(id) => Val(w.read(id, [], tr), tr)
    case GoPayload(tmp) => Val(PayloadOf(ReadTemp(temps, tmp)), tr)
    case GoNode(id, k, operands) =>
      (match GoEvalAll(operands, w, temps, tr)
       case Val(vs, tr') => Finish(id, k, vs, w, tr')
       case stop => Stopped(stop))
    case GoLogic(id, left, right) =>
      (match GoEval(left, w, temps, tr)
       case Val(v, tr') => if w.enters(id, v) then GoEval(right, w, temps, tr') else Val(v, tr')
       case stop => stop)
    case GoOpaque(id) => Act(id, [], w, tr)
  }

  function GoEvalAll(es: seq<GoExpr>, w: World, temps: Temps, tr: Trace): Out<seq<Value>>
    decreases es, 0
  {
    if es == [] then Val([], tr) else
    match GoEval(es[0], w, temps, tr)
    case Val(v, tr') =>
      (match GoEvalAll(es[1..], w, temps, tr')
       case Val(vs, tr'') => Val([v] + vs, tr'')
       case stop => stop)
    case stop => Stopped(stop)
  }

  function GoReturnValue(r: GoReturn, v: Value): Value {
    match r
    case WrapError(tag) => Sum(tag, Atom(0), ErrorOf(v))
    case WrapNone(tag) => Sum(tag, Atom(0), Atom(0))
    case RawError => ErrorOf(v)
  }

  /** Runs a preamble; its value is the temps it defined. */
  function Exec(ss: seq<GoStmt>, w: World, temps: Temps, tr: Trace): Out<Temps> {
    if ss == [] then Val(temps, tr) else
    match ss[0]
    case Define(tmp, e) =>
      (match GoEval(e, w, temps, tr)
       case Val(v, tr') => Exec(ss[1..], w, temps[tmp := v], tr')
       case stop => Stopped(stop))
    case BailIf(tmp, tag, ret) =>
      var v := ReadTemp(temps, tmp);
      if TagOf(v) == tag then Bail(GoReturnValue(ret, v), tr)
      else Exec(ss[1..], w, temps, tr)
  }

  // ---------------------------------------------------------------- the code's walks

  /** hoistableTries: `impure` is the flag on entry, the result the flag on exit,
      None once a `try` was met after an impure expression. */
  function Walk(e: Expr, impure: bool): Option<bool>
    decreases e, 1
  {
    match e
    case Literal(_) => Some(impure)
    case Read(_) => Some(impure)
    case Try(_, inner) =>
      if impure then None else
      (match Walk(inner, false)
       case Some(_) => Some(impure)
       case None => None)
    case Node(_, k, operands) =>
      (match WalkAll(operands, impure)
       case Some(after) => Some(after || MarksImpure(k))
       case None => None)
    case Logic(_, left, _) => Walk(left, impure)
    case Opaque(_) => Some(true)
  }

  function WalkAll(es: seq<Expr>, impure: bool): Option<bool>
    decreases es, 0
  {
    if es == [] then Some(impure) else
    match Walk(es[0], impure)
    case Some(after) => WalkAll(es[1..], after)
    case None => None
  }

  predicate Hoistable(es: seq<Expr>) { WalkAll(es, false).Some? }

  /** The generator's fields that hoisting writes. */
  datatype Gen = Gen(tryHoist: map<int, int>, counter: int, out: seq<GoStmt>)

  /** emitExpr: a `try` that was not hoisted has no Go expression. */
  function Emit(e: Expr, hoisted: map<int, int>): Option<GoExpr>
    decreases e, 1
  {
    match e
    case Literal(id) => Some(GoLiteral(id))
    case Read(id) => Some(GoRead(id))
    case Try(id, _) => if id in hoisted then Some(GoPayload(hoisted[id])) else None
    case Node(id, k, operands) =>
      (match EmitAll(operands, hoisted)
       case Some(gs) => Some(GoNode(id, k, gs))
       case None => None)
    case Logic(id, left, right) =>
      (match (Emit(left, hoisted), Emit(right, hoisted))
       case (Some(l), Some(r)) => Some(GoLogic(id, l, r))
       case _ => None)
    case Opaque(id) => Some(GoOpaque(id))
  }

  function EmitAll(es: seq<Expr>, hoisted: map<int, int>): Option<seq<GoExpr>>
    decreases es, 0
  {
    if es == [] then Some([]) else
    match (Emit(es[0], hoisted), EmitAll(es[1..], hoisted))
    case (Some(g), Some(gs)) => Some([g] + gs)
    case _ => None
  }

  /** bailKind and the frame checks of emitTryPreamble: the bail tag and what the
      bail returns; None outside a frame that can bail. */
  function BailForm(f: Frame): Option<(int, GoReturn)> {
    match f
    case SpawnBody => Some((1, RawError))
    case FuncBody(ResultReturn) => Some((1, WrapError(1)))
    case FuncBody(OptionReturn) => Some((0, WrapNone(0)))
    case FuncBody(_) => None
  }

  /** emitTryPreamble, emitTryBail and emitTryPreambleSpawn: the temp and the
      state after `<tmp> := inner; if <tmp>.Tag == bail { return … }`. */
  function Preamble(inner: Expr, f: Frame, g: Gen): Option<(int, Gen)>
    decreases inner, 2
  {
    match BailForm(f)
    case None => None
    case Some((tag, ret)) =>
      match (if Walk(inner, false).Some? then Hoist(inner, f, g) else Some(g))
      case None => None
      case Some(g1) =>
        var tmp := g1.counter + 1;
        match Emit(inner, g1.tryHoist)
        case None => None
        case Some(e) =>
          Some((tmp, Gen(g1.tryHoist, tmp, g1.out + [Define(tmp, e), BailIf(tmp, tag, ret)])))
  }

  /** hoistExprTries. */
  function Hoist(e: Expr, f: Frame, g: Gen): Option<Gen>
    decreases e, 1
  {
    match e
    case Literal(_) => Some(g)
    case Read(_) => Some(g)
    case Try(id, inner) =>
      (match Preamble(inner, f, g)
       case Some((tmp, g1)) => Some(g1.(tryHoist := g1.tryHoist[id := tmp]))
       case None => None)
    case Node(_, _, operands) => HoistAll(operands, f, g)
    case Logic(_, left, _) => Hoist(left, f, g)
    case Opaque(_) => Some(g)
  }

  function HoistAll(es: seq<Expr>, f: Frame, g: Gen): Option<Gen>
    decreases es, 0
  {
    if es == [] then Some(g) else
    match Hoist(es[0], f, g)
    case Some(g1) => HoistAll(es[1..], f, g1)
    case None => None
  }

  /** hoistTriesIfSafe. */
  function HoistIfSafe(es: seq<Expr>, f: Frame, g: Gen): Option<Gen> {
    if Hoistable(es) then HoistAll(es, f, g) else Some(g)
  }

  /** A statement over the sub-expressions es: hoist, then emit what is left. */
  function Lower(es: seq<Expr>, f: Frame, g: Gen): Option<(Gen, seq<GoExpr>)> {
    match HoistIfSafe(es, f, g)
    case None => None
    case Some(g1) =>
      match EmitAll(es, g1.tryHoist)
      case None => None
      case Some(gs) => Some((g1, gs))
  }

  /** Running the lowered statement, in lexical order, up to its own action. */
  function Run(pre: seq<GoStmt>, gs: seq<GoExpr>, w: World, temps: Temps, tr: Trace): Out<seq<Value>> {
    match Exec(pre, w, temps, tr)
    case Val(temps', tr') => GoEvalAll(gs, w, temps', tr')
    case stop => Stopped(stop)
  }
}
