/**
 The generator of try.go, in the form the source has: a safety walk over captured
 flags, and hoisting methods that write the hoist map, the temp counter and the
 output. Every method is proved to compute what TryHoisting specifies.
 */
module TryGenerator {
  import opened Wrappers
  import opened TryHoisting
  import opened TryHoistingProofs
  import opened GoOrder
  import opened MovedEffects
  import opened ScheduledHoisting
  import opened TryLowers

  // ---------------------------------------------------------------- the safety walk

  /** The variables captured by hoistableTries' walk. */
  class SafetyWalk {
    var impure: bool
    var ok: bool

    constructor ()
      ensures !impure && ok
    {
      impure, ok := false, true;
    }

    method Visit(e: Expr)
      modifies this
      ensures !old(ok) ==> !ok
      ensures old(ok) ==> ok == Walk(e, old(impure)).Some? && (ok ==> impure == Walk(e, old(impure)).value)
      decreases e
    {
      if !ok { return; }
      match e
      case Literal(_) =>
      case Read(_) =>
      case Try(_, inner) =>
        if impure {
          ok := false;
          return;
        }
        var saved := impure;
        impure := false;
        Visit(inner);
        impure := saved;
      case Node(_, k, operands) =>
        for i := 0 to |operands|
          invariant ok ==> WalkAll(operands[i..], impure) == WalkAll(operands, old(impure))
          invariant !ok ==> WalkAll(operands, old(impure)) == None
        {
          Visit(operands[i]);
        }
        if MarksImpure(k) { impure := true; }
      case Logic(_, left, _) => Visit(left);
      case Opaque(_) => impure := true;
    }
  }

  /** hoistableTries: true exactly when, in the frame of the statement and in the frame of
      every `try` inside it, no effect precedes a `try`. */
  method HoistableTries(es: seq<Expr>) returns (ok: bool)
    ensures ok == Hoistable(es)
    ensures ok <==> Ordered(StepsAll(es)) && NestedOrderedAll(es)
  {
    var walk := new SafetyWalk();
    for i := 0 to |es|
      invariant fresh(walk)
      invariant walk.ok ==> WalkAll(es[i..], walk.impure) == WalkAll(es, false)
      invariant !walk.ok ==> WalkAll(es, false) == None
    {
      walk.Visit(es[i]);
    }
    WalkAllMeaning(es, false);
    ok := walk.ok;
  }

  // ---------------------------------------------------------------- the generator

  function Size(e: Expr): nat
    decreases e, 1
  {
    match e
    case Try(_, inner) => 1 + Size(inner)
    case Node(_, _, operands) => 1 + SizeAll(operands)
    case Logic(_, left, right) => 1 + Size(left) + Size(right)
    case _ => 1
  }

  function SizeAll(es: seq<Expr>): nat
    decreases es, 0
  {
    if es == [] then 0 else Size(es[0]) + SizeAll(es[1..])
  }

  /** A statement over a single expression. */
  lemma OneOperand(e: Expr, frame: Frame, g: Gen)
    ensures SizeAll([e]) == Size(e)
    ensures Hoistable([e]) == Walk(e, false).Some?
    ensures HoistAll([e], frame, g) == Hoist(e, frame, g)
  {
    var es := [e];
    assert es[0] == e && es[1..] == [];
    var after := Walk(e, false);
    if after.Some? { assert WalkAll(es[1..], after.value) == Some(after.value); }
    assert WalkAll(es, false) == after;
    var h := Hoist(e, frame, g);
    if h.Some? { assert HoistAll(es[1..], frame, h.value) == h; }
  }

  /** The preamble, then the expressions left, run as the source does, under every order of
      evaluation that Go allows. */
  ghost predicate RunsAsSource(es: seq<Expr>, f: Frame, pre: seq<GoStmt>, gs: seq<GoExpr>, counter: int) {
    forall still, w, temps, tr :: Steady(w, still) && InPlaceAll(es, still) && Settled(es, still) && Fresh(temps, counter) ==>
      AlwaysRuns(pre, gs, w, temps, tr, EvalAll(es, f, w, tr))
  }

  lemma LoweredRuns(es: seq<Expr>, f: Frame, g: Gen)
    requires UniqueAll(es) && Unhoisted(es, g) && StrictlyHoistable(es) && Lower(es, f, g).Some?
    ensures var (g1, gs) := Lower(es, f, g).value;
            g.out <= g1.out && RunsAsSource(es, f, g1.out[|g.out|..], gs, g.counter)
  {
    hide Steady, InPlaceAll, Settled, AlwaysRuns, EvalAll;
    LoweringHoistsEveryTryOnce(es, f, g);
    var (g1, gs) := Lower(es, f, g).value;
    forall still, w, temps, tr | Steady(w, still) && InPlaceAll(es, still) && Settled(es, still) && Fresh(temps, g.counter)
      ensures AlwaysRuns(g1.out[|g.out|..], gs, w, temps, tr, EvalAll(es, f, w, tr))
    {
      AnyOrderPreservesMeaning(es, still, f, g, w, temps, tr);
    }
  }

  class Generator {
    const frame: Frame
    var tryHoist: map<int, int>
    var tryTempCounter: int
    var b: seq<GoStmt>

    constructor (frame: Frame)
      ensures this.frame == frame && State() == Gen(map[], 0, [])
    {
      this.frame := frame;
      tryHoist, tryTempCounter, b := map[], 0, [];
    }

    function State(): Gen reads this { Gen(tryHoist, tryTempCounter, b) }

    method HoistTriesIfSafe(es: seq<Expr>) returns (failed: bool)
      modifies this
      ensures HoistIfSafe(es, frame, old(State())) == if failed then None else Some(State())
      decreases SizeAll(es), 2
    {
      failed := false;
      var safe := HoistableTries(es);
      if !safe { return; }
      failed := HoistEach(es);
    }

    method HoistEach(es: seq<Expr>) returns (failed: bool)
      modifies this
      ensures HoistAll(es, frame, old(State())) == if failed then None else Some(State())
      decreases SizeAll(es), 1
    {
      failed := false;
      for i := 0 to |es|
        invariant HoistAll(es[i..], frame, State()) == HoistAll(es, frame, old(State()))
        invariant SizeAll(es[i..]) <= SizeAll(es)
      {
        failed := HoistExprTries(es[i]);
        if failed { return; }
      }
    }

    method HoistExprTries(e: Expr) returns (failed: bool)
      modifies this
      ensures Hoist(e, frame, old(State())) == if failed then None else Some(State())
      decreases Size(e), 0
    {
      failed := false;
      match e
      case Literal(_) =>
      case Read(_) =>
      case Try(id, inner) =>
        var tmp;
        failed, tmp := EmitTryPreamble(inner);
        if failed { return; }
        tryHoist := tryHoist[id := tmp];
      case Node(_, _, operands) => failed := HoistEach(operands);
      case Logic(_, left, _) => failed := HoistExprTries(left);
      case Opaque(_) =>
    }

    method EmitTryPreamble(inner: Expr) returns (failed: bool, tmp: int)
      modifies this
      ensures Preamble(inner, frame, old(State())) == if failed then None else Some((tmp, State()))
      ensures Distinct(inner) && Untouched(TrySet(inner), old(tryHoist)) ==> (!failed <==> Lowerable(inner, frame) && CanBail(frame))
      ensures !failed ==> EndsInBail(b, tmp, frame)
      decreases Size(inner), 4
    {
      ghost var before := State();
      if Distinct(inner) && Untouched(TrySet(inner), before.tryHoist) { DirectTryLowersExactly(inner, frame, before); }
      if Preamble(inner, frame, before).Some? { PreambleEndsInBail(inner, frame, before); }
      failed, tmp := true, 0;
      match frame
      case SpawnBody => failed, tmp := EmitTryBail(inner, 1, RawError);
      case FuncBody(ResultReturn) => failed, tmp := EmitTryBail(inner, 1, WrapError(1));
      case FuncBody(OptionReturn) => failed, tmp := EmitTryBail(inner, 0, WrapNone(0));
      case FuncBody(_) =>
    }

    method EmitTryBail(inner: Expr, bailTag: int, ret: GoReturn) returns (failed: bool, tmp: int)
      requires BailForm(frame) == Some((bailTag, ret))
      modifies this
      ensures Preamble(inner, frame, old(State())) == if failed then None else Some((tmp, State()))
      decreases Size(inner), 3
    {
      tmp := 0;
      var es := [inner];
      OneOperand(inner, frame, State());
      failed := HoistTriesIfSafe(es);
      if failed { return; }
      tmp := tryTempCounter + 1;
      match Emit(inner, tryHoist)
      case None =>
        failed := true;
      case Some(ge) =>
        tryTempCounter := tmp;
        b := b + [Define(tmp, ge), BailIf(tmp, bailTag, ret)];
    }

    /** A statement over es, up to its own action: hoist, then emit. */
    method LowerStatement(es: seq<Expr>) returns (r: Option<seq<GoExpr>>)
      modifies this
      ensures match Lower(es, frame, old(State()))
              case Some((g, gs)) => r == Some(gs) && State() == g
              case None => r == None
      ensures Unhoisted(es, old(State())) ==> (r.Some? <==> LowerableAll(es, frame))
      ensures r.Some? && UniqueAll(es) && Unhoisted(es, old(State())) && StrictlyHoistable(es) ==>
                old(b) <= b && RunsAsSource(es, frame, b[|old(b)|..], r.value, old(tryTempCounter))
    {
      ghost var before := State();
      if Unhoisted(es, before) { LowersExactly(es, frame, before); }
      if UniqueAll(es) && Unhoisted(es, before) && StrictlyHoistable(es) && Lower(es, frame, before).Some? {
        LoweredRuns(es, frame, before);
      }
      var failed := HoistTriesIfSafe(es);
      if failed { return None; }
      r := EmitAll(es, tryHoist);
    }
  }
}
