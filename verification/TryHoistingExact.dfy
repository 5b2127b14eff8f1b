/** The exact condition under which a statement that lowers keeps its meaning in Go. */
module TryHoistingExact {
  import opened Wrappers
  import opened TryHoisting
  import opened TryHoistingProofs
  import opened GoOrder
  import opened GoOrderProofs
  import opened GoSchedules
  import opened GoOrderExact
  import opened MovedEffects
  import opened MovedReads
  import opened ScheduledHoisting
  import opened LooseFrames

  /** Running the lowered statement is left-to-right evaluation, under every order that Go
      allows, in every world in which the reads of `still` do not change. */
  ghost predicate Preserved(es: seq<Expr>, still: set<int>, f: Frame, g: Gen)
    requires Lower(es, f, g).Some? && g.out <= Lower(es, f, g).value.0.out
  {
    var (g1, gs) := Lower(es, f, g).value;
    forall w, temps, tr :: Steady(w, still) && Fresh(temps, g.counter) ==>
      AlwaysRuns(Added(g, g1), gs, w, temps, tr, EvalAll(es, f, w, tr))
  }

  // ---------------------------------------------------------------- why

  /** A statement that lowers, over a tree of nodes. */
  ghost predicate Lowers(es: seq<Expr>, f: Frame, g: Gen) {
    UniqueAll(es) && Unhoisted(es, g) && Lower(es, f, g).Some? && g.out <= Lower(es, f, g).value.0.out
  }

  lemma PreservedIf(es: seq<Expr>, still: set<int>, f: Frame, g: Gen)
    requires Lowers(es, f, g) && StrictlyHoistable(es) && InPlaceAll(es, still) && Settled(es, still)
    ensures Preserved(es, still, f, g)
  {
    hide Steady, AlwaysRuns, EvalAll;
    var (g1, gs) := Lower(es, f, g).value;
    forall w, temps, tr | Steady(w, still) && Fresh(temps, g.counter)
      ensures AlwaysRuns(Added(g, g1), gs, w, temps, tr, EvalAll(es, f, w, tr))
    {
      AnyOrderPreservesMeaning(es, still, f, g, w, temps, tr);
    }
  }

  /** What the walks say of a statement that lowers. */
  lemma LoweredWhole(es: seq<Expr>, f: Frame, g: Gen)
    requires Lowers(es, f, g)
    ensures Hoistable(es)
    ensures var (g1, gs) := Lower(es, f, g).value;
            && LoweredAll(es, f, g, g1.tryHoist) && HoistAll(es, f, g) == Some(g1)
            && EmitAll(es, g1.tryHoist) == Some(gs)
            && Trees(Added(g, g1)) && TreeAll(gs) && TreeAll(PhaseOne(gs))
  {
    LoweringHoistsEveryTryOnce(es, f, g);
    var (g1, gs) := Lower(es, f, g).value;
    PreamblesFrames(es, f, g, g1.tryHoist, {});
    OpenedEmits(es, g1.tryHoist);
    OpenedIds(es);
    EmitTrees(es, g1.tryHoist);
    EmitTrees(Opened(es), g1.tryHoist);
  }

  /** One run that ends otherwise is enough. */
  lemma OneRunSpoils(
    es: seq<Expr>, still: set<int>, f: Frame, g: Gen, w: World, temps: Temps, tr: Trace, plan: seq<seq<int>>, sched: seq<int>)
    requires Lowers(es, f, g) && Steady(w, still) && Fresh(temps, g.counter)
    requires var (g1, gs) := Lower(es, f, g).value;
             var r := RunBy(Added(g, g1), gs, plan, sched, w, temps, tr);
             r.Some? && r.value != EvalAll(es, f, w, tr)
    ensures !Preserved(es, still, f, g)
  {
    hide Steady, EvalAll, Lower, RunBy;
  }

  /** Or two runs that end differently. */
  lemma TwoRunsSpoil(
    es: seq<Expr>, still: set<int>, f: Frame, g: Gen, w: World,
    plan1: seq<seq<int>>, sched1: seq<int>, plan2: seq<seq<int>>, sched2: seq<int>)
    requires Lowers(es, f, g) && Steady(w, still)
    requires var (g1, gs) := Lower(es, f, g).value;
             var r1 := RunBy(Added(g, g1), gs, plan1, sched1, w, NO_TEMPS, []);
             var r2 := RunBy(Added(g, g1), gs, plan2, sched2, w, NO_TEMPS, []);
             r1.Some? && r2.Some? && r1 != r2
    ensures !Preserved(es, still, f, g)
  {
    hide Steady, EvalAll, Lower, RunBy;
    assert Fresh(NO_TEMPS, g.counter);
    var (g1, gs) := Lower(es, f, g).value;
    if RunBy(Added(g, g1), gs, plan1, sched1, w, NO_TEMPS, []).value != EvalAll(es, f, w, []) {
      OneRunSpoils(es, still, f, g, w, NO_TEMPS, [], plan1, sched1);
    } else {
      OneRunSpoils(es, still, f, g, w, NO_TEMPS, [], plan2, sched2);
    }
  }

  lemma ProbeIsSteady(t: Trap, still: set<int>)
    requires t.when.Always? || t.x !in still || t.odd == Atom(0)
    ensures Steady(Probe(t), still)
  {
  }

  const NO_TEMPS: Temps := map[]

  /** A world in which the source panics before a `try`, and the Go program bails at it. */
  lemma EffectSpoils(es: seq<Expr>, still: set<int>, f: Frame, g: Gen)
    requires Lowers(es, f, g) && !StrictlyHoistable(es)
    ensures !Preserved(es, still, f, g)
  {
    hide Probe, EvalAll, Exec, ExecBy;
    LoweredWhole(es, f, g);
    var (g1, gs) := Lower(es, f, g).value;
    var bad, x := CulpritOf(es);
    var t := Bad(bad, x, f);
    ProbeIsSteady(t, still);
    MovedAllApart(es, f, g, g1.tryHoist, bad, x, NO_TEMPS, [], []);
    var plan := LexicalPlan(Added(g, g1), Probe(t), NO_TEMPS, []);
    OneRunSpoils(es, still, f, g, Probe(t), NO_TEMPS, [], plan, []);
  }

  /** A world in which both programs run through, and only the Go program's reads see the effect. */
  lemma ReadSpoils(es: seq<Expr>, still: set<int>, f: Frame, g: Gen)
    requires Lowers(es, f, g) && !InPlaceAll(es, still)
    ensures !Preserved(es, still, f, g)
  {
    hide Probe, EvalAll, Exec, GoEvalAll;
    LoweredWhole(es, f, g);
    var (g1, gs) := Lower(es, f, g).value;
    var x, ev := FindOvertakenIn(es, still);
    var t := Stale(x, ev);
    ProbeIsSteady(t, still);
    SourceAllClean(es, x, ev, f, []);
    ExecAllAtoms(es, f, g, g1.tryHoist, t, NO_TEMPS, []);
    var r := Exec(Added(g, g1), Probe(t), NO_TEMPS, []);
    GoAllSpoilt(es, x, ev, f, g, g1.tryHoist, NO_TEMPS, [], r.x, r.tr);
    NoStoreOvertaken(es, x, ev, g1.tryHoist);
    StoreSpoilt(gs, t, Context(Probe(t), r.x), r.tr);
    var plan, sched := ARunExists(Added(g, g1), gs, Probe(t), NO_TEMPS, []);
    OneRunSpoils(es, still, f, g, Probe(t), NO_TEMPS, [], plan, sched);
  }

  /** What an assignment stores to is no read. */
  lemma NoStoreOvertaken(es: seq<Expr>, x: int, ev: int, hoisted: map<int, int>)
    requires UniqueAll(es) && OvertakenAll(es, x, ev) && EmitAll(es, hoisted).Some?
    ensures var gs := EmitAll(es, hoisted).value; IsStore(gs) ==> gs[0].id != x
  {
    var gs := EmitAll(es, hoisted).value;
    if IsStore(gs) {
      var operands := es[0].operands;
      ActsAllIn(operands);
      if Overtaken(es[0], x, ev) {
        OvertakenAllNodes(operands, x, ev);
      } else if OvertakenAll(es[1..], x, ev) {
        OvertakenAllNodes(es[1..], x, ev);
      }
    }
  }

  /** Phase two keeps an odd value. */
  lemma StoreSpoilt(gs: seq<GoExpr>, t: Trap, c: Context, tr: Trace)
    requires c.w == Probe(t) && Mild(t) && !t.when.Always? && (IsStore(gs) ==> gs[0].id != t.x) && AllAtoms(c.temps)
    requires var o := GoEvalAll(gs, c.w, c.temps, tr); o.Val? && !Clean(o.x)
    ensures var o := InPhases(gs, c, tr); o.Val? && !Clean(o.x)
  {
    if IsStore(gs) {
      StorePhases(gs, c, tr);
      var ops := gs[0].operands;
      GoAllAtoms(ops, t, c.temps, tr);
      var o := InOrderAll(ops, c, tr);
      GoAllAtoms(gs[1..], t, c.temps, o.tr);
      assert InOrder(gs[0], c, tr) == Val(Blend(o.x, t.odd), o.tr);
    }
  }

  /** A world in which two schedules of a `try`'s operand end differently. */
  lemma LooseSpoils(es: seq<Expr>, still: set<int>, f: Frame, g: Gen)
    requires Lowers(es, f, g) && !FramedAll(es, still)
    ensures !Preserved(es, still, f, g)
  {
    hide Probe, EvalAll, Exec, ExecBy, GoEvalAll, StmtEnds, InPhases;
    LoweredWhole(es, f, g);
    var (g1, gs) := Lower(es, f, g).value;
    var a, b, late, p := FindLooseIn(es, still);
    var t := Snare(a, b, late, p, BailMark(f));
    ProbeIsSteady(t, still);
    var plan := LooseAllApart(es, f, g, g1.tryHoist, a, b, late, p, NO_TEMPS, []);
    var plan2, sched2 := ARunExists(Added(g, g1), gs, Probe(t), NO_TEMPS, []);
    ApartRuns(es, f, g, a, b, late, p, plan, plan2, sched2);
    TwoRunsSpoil(es, still, f, g, Probe(t), plan, [], plan2, sched2);
  }

  /** Both runs exist, and they end differently. */
  lemma ApartRuns(
    es: seq<Expr>, f: Frame, g: Gen, a: int, b: int, late: bool, p: Pair, plan: seq<seq<int>>, plan2: seq<seq<int>>, sched2: seq<int>)
    requires Lowers(es, f, g)
    requires var (g1, gs) := Lower(es, f, g).value;
             var w := Probe(Snare(a, b, late, p, BailMark(f)));
             && TreeAll(PhaseOne(gs))
             && FrameApart(ExecBy(Added(g, g1), plan, w, NO_TEMPS, []), Exec(Added(g, g1), w, NO_TEMPS, []), a, b, late, p)
             && RunBy(Added(g, g1), gs, plan2, sched2, w, NO_TEMPS, []) ==
                Some(RestInPhases(Exec(Added(g, g1), w, NO_TEMPS, []), gs, w))
    ensures var (g1, gs) := Lower(es, f, g).value;
            var w := Probe(Snare(a, b, late, p, BailMark(f)));
            var r := RunBy(Added(g, g1), gs, plan, [], w, NO_TEMPS, []);
            r.Some? && r != RunBy(Added(g, g1), gs, plan2, sched2, w, NO_TEMPS, [])
  {
    hide Probe, ExecBy, Exec, Lower, Snare;
    var (g1, gs) := Lower(es, f, g).value;
    var w := Probe(Snare(a, b, late, p, BailMark(f)));
    var r := Exec(Added(g, g1), w, NO_TEMPS, []);
    if r.Val? { var s := LexicalEnds(PhaseOne(gs), Context(w, r.x), r.tr); }
  }

  /** A world in which two schedules of the statement itself end differently. */
  lemma StatementSpoils(es: seq<Expr>, still: set<int>, f: Frame, g: Gen)
    requires Lowers(es, f, g) && !ClearAll(PhaseOne(Skeletons(es)), still)
    ensures !Preserved(es, still, f, g)
  {
    hide Probe, EvalAll, Exec, ExecBy, Ends, StmtEnds;
    LoweredWhole(es, f, g);
    var (g1, gs) := Lower(es, f, g).value;
    OpenedEmits(es, g1.tryHoist);
    SameShapes(Opened(es), g1.tryHoist, still);
    var a, b, late, p := FindClashIn(PhaseOne(gs), still);
    var t := Snare(a, b, late, p, Atom(1));
    ProbeIsSteady(t, still);
    ClashAllNodes(PhaseOne(gs), a, b, late, p);
    OutsideTries(es, g1.tryHoist);
    var r := CalmPreamble(es, f, g, a, b, late, p);
    var plan := LexicalPlan(Added(g, g1), Probe(t), NO_TEMPS, []);
    var s1, s2 := StatementApart(gs, a, b, late, p, Context(Probe(t), r.x), r.tr);
    TwoRunsSpoil(es, still, f, g, Probe(t), plan, s1, plan, s2);
  }

  /** The nodes of the statement's own frame are in no `try`. */
  lemma OutsideTries(es: seq<Expr>, hoisted: map<int, int>)
    requires UniqueAll(es) && EmitAll(es, hoisted).Some?
    ensures var gs := EmitAll(es, hoisted).value;
            && MomentsAll(PhaseOne(gs)) !! InTriesAll(es)
            && (IsStore(gs) ==> gs[0].id !in InTriesAll(es) && gs[0].id !in MomentsAll(PhaseOne(gs)))
  {
    var gs := EmitAll(es, hoisted).value;
    OpenedEmits(es, hoisted);
    OpenedIds(es);
    EmitTrees(Opened(es), hoisted);
    EmitTrees(es, hoisted);
    if IsStore(gs) {
      assert gs[0].id in Moments(gs[0]);
      MomentsConcat(gs[0].operands, gs[1..]);
    }
  }

  /** The preambles run through where the pair is in the frame of the statement. */
  lemma CalmPreamble(es: seq<Expr>, f: Frame, g: Gen, a: int, b: int, late: bool, p: Pair) returns (r: Out<Temps>)
    requires Lowers(es, f, g) && a !in InTriesAll(es) && b !in InTriesAll(es)
    ensures r == Exec(Added(g, Lower(es, f, g).value.0), Probe(Snare(a, b, late, p, Atom(1))), NO_TEMPS, [])
    ensures r.Val? && AllGood(r.x) && !Seen(r.tr, b)
  {
    hide Probe, Exec;
    LoweredWhole(es, f, g);
    var g1 := Lower(es, f, g).value.0;
    var t := Snare(a, b, late, p, Atom(1));
    SnareAway(a, b, late, p, Atom(1), InTriesAll(es), []);
    ExecAllCalm(es, f, g, g1.tryHoist, t, NO_TEMPS, []);
    ExecAllBetween(es, f, g, g1.tryHoist, Probe(t), NO_TEMPS, []);
    r := Exec(Added(g, g1), Probe(t), NO_TEMPS, []);
  }

  /** A world in which Go reaches the value of a store before it finds the element. */
  lemma StoreSpoils(es: seq<Expr>, still: set<int>, f: Frame, g: Gen)
    requires Lowers(es, f, g) && StrictlyHoistable(es) && InPlaceAll(es, still)
    requires ClearAll(PhaseOne(Skeletons(es)), still) && !ClearStmt(Skeletons(es), still)
    ensures !Preserved(es, still, f, g)
  {
    hide Probe, EvalAll, Exec, ExecBy, Ends, StmtEnds;
    LoweredWhole(es, f, g);
    var (g1, gs) := Lower(es, f, g).value;
    OpenedEmits(es, g1.tryHoist);
    SameShapes(Opened(es), g1.tryHoist, still);
    SameStmt(es, g1.tryHoist, still);
    var b, p;
    if CallsAll(gs[1..]) != {} {
      b := Pick(CallsAll(gs[1..]));
      p := PanicAndCall;
    } else {
      b := Pick(FailsAll(gs[1..]));
      p := TwoPanics;
    }
    var t := Snare(gs[0].id, b, true, p, Atom(1));
    ProbeIsSteady(t, still);
    ValueIsPhaseOne(gs, b, p);
    OutsideTries(es, g1.tryHoist);
    var r := CalmPreamble(es, f, g, gs[0].id, b, true, p);
    var plan := LexicalPlan(Added(g, g1), Probe(t), NO_TEMPS, []);
    var s := StoreApart(gs, b, p, Context(Probe(t), r.x), r.tr);
    HoistingPreservesMeaning(es, still, f, g, Probe(t), NO_TEMPS, []);
    OneRunSpoils(es, still, f, g, Probe(t), NO_TEMPS, [], plan, s);
  }

  lemma ValueIsPhaseOne(gs: seq<GoExpr>, b: int, p: Pair)
    requires IsStore(gs) && b in OthersIn(gs[1..], p)
    ensures b in MomentsAll(PhaseOne(gs))
  {
    AllOrdersAreMoments(gs[1..]);
    MomentsConcat(gs[0].operands, gs[1..]);
  }

  lemma {:induction false} MomentsConcat(a: seq<GoExpr>, b: seq<GoExpr>)
    ensures MomentsAll(a + b) == MomentsAll(a) + MomentsAll(b)
  {
    if a == [] {
      assert a + b == b;
    } else {
      assert (a + b)[0] == a[0] && (a + b)[1..] == a[1..] + b;
      MomentsConcat(a[1..], b);
    }
  }

  // ---------------------------------------------------------------- the exact condition

  /** A statement that lowers keeps its meaning in Go, under every order of evaluation that Go
      allows, if and only if, in the frame of the statement and of every `try` inside it,
      - no effect or panic, not even one in the right operand of `&&` or `||`, precedes a `try`,
      - no read that may change precedes a `try` whose operand has an effect, and
      - no two nodes may change places that matter to each other: a node that may panic and a call
        or another such node, or a read that may change and a call. */
  lemma HoistingIsExact(es: seq<Expr>, still: set<int>, f: Frame, g: Gen)
    requires UniqueAll(es) && Unhoisted(es, g) && Lower(es, f, g).Some?
    ensures g.out <= Lower(es, f, g).value.0.out
    ensures Preserved(es, still, f, g) <==> StrictlyHoistable(es) && InPlaceAll(es, still) && Settled(es, still)
  {
    LoweringHoistsEveryTryOnce(es, f, g);
    if !StrictlyHoistable(es) {
      EffectSpoils(es, still, f, g);
    } else if !InPlaceAll(es, still) {
      ReadSpoils(es, still, f, g);
    } else if !FramedAll(es, still) {
      LooseSpoils(es, still, f, g);
    } else if !ClearAll(PhaseOne(Skeletons(es)), still) {
      StatementSpoils(es, still, f, g);
    } else if !ClearStmt(Skeletons(es), still) {
      StoreSpoils(es, still, f, g);
    } else {
      PreservedIf(es, still, f, g);
    }
  }

  // ---------------------------------------------------------------- two special cases

  /** All names and fields read in e, in its `try`s too. */
  function ReadsOf(e: Expr): set<int>
    decreases e, 1
  {
    match e
    case Literal(_) => {}
    case Read(id) => {id}
    case Try(_, inner) => ReadsOf(inner)
    case Node(id, k, operands) => ReadsIn(operands) + if Observes(k) then {id} else {}
    case Logic(_, left, right) => ReadsOf(left) + ReadsOf(right)
    case Opaque(_) => {}
  }

  function ReadsIn(es: seq<Expr>): set<int>
    decreases es, 0
  {
    if es == [] then {} else ReadsOf(es[0]) + ReadsIn(es[1..])
  }

  lemma {:induction false} SteadyRead(e: Expr, still: set<int>)
    requires ReadsOf(e) <= still
    ensures InPlace(e, still) && Reads(e) <= still
    decreases e, 1
  {
    match e
    case Try(_, inner) => SteadyRead(inner, still);
    case Node(_, _, operands) => SteadyReads(operands, still);
    case Logic(_, left, right) =>
      SteadyRead(left, still);
      SteadyRead(right, still);
    case _ =>
  }

  lemma {:induction false} SteadyReads(es: seq<Expr>, still: set<int>)
    requires ReadsIn(es) <= still
    ensures InPlaceAll(es, still) && ReadsAll(es) <= still
    decreases es, 0
  {
    if es != [] {
      SteadyRead(es[0], still);
      SteadyReads(es[1..], still);
    }
  }

  /** When no read changes, calls and panics alone decide. */
  lemma ExactForSteadyReads(es: seq<Expr>, still: set<int>, f: Frame, g: Gen)
    requires UniqueAll(es) && Unhoisted(es, g) && Lower(es, f, g).Some? && ReadsIn(es) <= still
    ensures g.out <= Lower(es, f, g).value.0.out
    ensures Preserved(es, still, f, g) <==> StrictlyHoistable(es) && Settled(es, still)
  {
    SteadyReads(es, still);
    HoistingIsExact(es, still, f, g);
  }

  /** All indices, divisions and stores to elements in e, in its `try`s too. */
  function PanicsOf(e: Expr): set<int>
    decreases e, 1
  {
    match e
    case Try(_, inner) => PanicsOf(inner)
    case Node(id, k, operands) => PanicsIn(operands) + if MayFail(k) then {id} else {}
    case Logic(_, left, right) => PanicsOf(left) + PanicsOf(right)
    case _ => {}
  }

  function PanicsIn(es: seq<Expr>): set<int>
    decreases es, 0
  {
    if es == [] then {} else PanicsOf(es[0]) + PanicsIn(es[1..])
  }

  /** Nothing that floats matters to a call. */
  predicate Harmless(e: GoExpr, still: set<int>) {
    Clear(e, still) && Fails(e) == {} && Late(e, true) == {} && Early(e, true) == {} && Late(e, false) <= still && Early(e, false) <= still
  }

  predicate HarmlessAll(es: seq<GoExpr>, still: set<int>) {
    && ClearAll(es, still) && FailsAll(es) == {}
    && LateAll(es, true) == {} && EarlyAll(es, true) == {} && LateAll(es, false) <= still && EarlyAll(es, false) <= still
  }

  lemma {:induction false} CalmIsSettled(e: Expr, still: set<int>)
    requires ReadsOf(e) <= still && PanicsOf(e) == {}
    ensures Harmless(Skeleton(e), still) && Framed(e, still)
    decreases e, 1
  {
    match e
    case Try(_, inner) => CalmIsSettled(inner, still);
    case Node(_, _, operands) => AllCalmIsSettled(operands, still);
    case Logic(_, left, right) => CalmIsSettled(left, still); CalmIsSettled(right, still);
    case _ =>
  }

  lemma {:induction false} AllCalmIsSettled(es: seq<Expr>, still: set<int>)
    requires ReadsIn(es) <= still && PanicsIn(es) == {}
    ensures HarmlessAll(Skeletons(es), still) && FramedAll(es, still)
    decreases es, 0
  {
    if es != [] {
      CalmIsSettled(es[0], still);
      AllCalmIsSettled(es[1..], still);
      assert Skeletons(es)[1..] == Skeletons(es[1..]);
    }
  }

  lemma NoStore(es: seq<Expr>)
    requires PanicsIn(es) == {}
    ensures !IsStore(Skeletons(es)) && PhaseOne(Skeletons(es)) == Skeletons(es)
  {
    if es != [] {
      assert PanicsOf(es[0]) == {};
      match es[0]
      case Node(id, k, _) => assert MayFail(k) ==> id in PanicsOf(es[0]);
      case _ => assert !Skeleton(es[0]).GoNode?;
    }
  }

  /** When besides nothing can panic but a call, the strict walk alone decides. */
  lemma ExactForCalls(es: seq<Expr>, still: set<int>, f: Frame, g: Gen)
    requires UniqueAll(es) && Unhoisted(es, g) && Lower(es, f, g).Some?
    requires ReadsIn(es) <= still && PanicsIn(es) == {}
    ensures g.out <= Lower(es, f, g).value.0.out
    ensures Preserved(es, still, f, g) <==> StrictlyHoistable(es)
  {
    ExactForSteadyReads(es, still, f, g);
    AllCalmIsSettled(es, still);
    NoStore(es);
  }

  /** The same in every world. */
  ghost predicate PreservedAnywhere(es: seq<Expr>, f: Frame, g: Gen)
    requires Lower(es, f, g).Some? && g.out <= Lower(es, f, g).value.0.out
  {
    var (g1, gs) := Lower(es, f, g).value;
    forall w, temps, tr :: Fresh(temps, g.counter) ==> AlwaysRuns(Added(g, g1), gs, w, temps, tr, EvalAll(es, f, w, tr))
  }

  /** With no assumption on the world at all: every read may change. */
  lemma ExactInAnyWorld(es: seq<Expr>, f: Frame, g: Gen)
    requires UniqueAll(es) && Unhoisted(es, g) && Lower(es, f, g).Some?
    ensures g.out <= Lower(es, f, g).value.0.out
    ensures PreservedAnywhere(es, f, g) <==> StrictlyHoistable(es) && InPlaceAll(es, {}) && Settled(es, {})
  {
    HoistingIsExact(es, {}, f, g);
    NothingToKeep(es, f, g);
  }

  lemma NothingToKeep(es: seq<Expr>, f: Frame, g: Gen)
    requires Lower(es, f, g).Some? && g.out <= Lower(es, f, g).value.0.out
    ensures Preserved(es, {}, f, g) <==> PreservedAnywhere(es, f, g)
  {
    hide AlwaysRuns, EvalAll, Lower;
    var (g1, gs) := Lower(es, f, g).value;
    forall w: World ensures Steady(w, {}) {}
    if Preserved(es, {}, f, g) {
      forall w, temps, tr | Fresh(temps, g.counter)
        ensures AlwaysRuns(Added(g, g1), gs, w, temps, tr, EvalAll(es, f, w, tr))
      {
        assert Steady(w, {});
      }
    }
  }
}
