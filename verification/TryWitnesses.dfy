/** Concrete statements on which the Go program does otherwise than the source. */
module TryWitnesses {
  import opened Wrappers
  import opened TryHoisting
  import opened TryHoistingProofs
  import opened GoOrder
  import opened GoOrderProofs
  import opened GoSchedules
  import opened MovedEffects
  import opened ScheduledHoisting

  // ---------------------------------------------------------------- an effect that is moved

  /** `(a && f()) == try g()`. */
  function AndThenTry(): seq<Expr> { [Node(0, ArithNode, [Guarded(), Tried()])] }
  function Guarded(): Expr { Logic(1, Read(2), Opaque(3)) }
  function Tried(): Expr { Try(4, Opaque(5)) }

  lemma OfPair(a: Expr, b: Expr, f: Frame, w: World, tr: Trace)
    requires Eval(a, f, w, tr).Val? && Eval(b, f, w, Eval(a, f, w, tr).tr).Val?
    ensures var x := Eval(a, f, w, tr);
            var y := Eval(b, f, w, x.tr);
            EvalAll([a, b], f, w, tr) == Val([x.x, y.x], y.tr)
  {
    var es, x := [a, b], Eval(a, f, w, tr);
    assert es[1..] == [b];
    OfSingle(b, f, w, x.tr);
    var y := Eval(b, f, w, x.tr);
    assert [x.x] + [y.x] == [x.x, y.x];
  }

  const RESULT_FRAME: Frame := FuncBody(ResultReturn)

  function AfterAndThenTry(): Gen { Gen(map[4 := 1], 1, [] + BailCode(1, GoOpaque(5), RESULT_FRAME)) }

  function AndThenTryInGo(): seq<GoExpr> {
    [GoNode(0, ArithNode, [GoLogic(1, GoRead(2), GoOpaque(3)), GoPayload(1)])]
  }

  /** The list walks on two expressions. */
  lemma PairWalks(a: Expr, b: Expr)
    ensures forall i :: WalkAll([a, b], i) == match Walk(a, i) case Some(j) => Walk(b, j) case None => None
    ensures forall i :: StrictWalkAll([a, b], i) ==
              match StrictWalk(a, i) case Some(j) => StrictWalk(b, j) case None => None
    ensures TrySetAll([a, b]) == TrySet(a) + TrySet(b)
    ensures DistinctAll([a, b]) == (TrySet(a) !! TrySet(b) && Distinct(a) && Distinct(b))
  {
    hide Walk, StrictWalk, TrySet, Distinct;
    assert [a, b][1..] == [b];
    OfSingle(b, RESULT_FRAME, QuietWorld(), []);
  }

  lemma PairLowers(a: Expr, b: Expr, f: Frame, g: Gen, h: map<int, int>)
    ensures HoistAll([a, b], f, g) == match Hoist(a, f, g) case Some(g1) => Hoist(b, f, g1) case None => None
    ensures EmitAll([a, b], h) ==
            match (Emit(a, h), Emit(b, h)) case (Some(x), Some(y)) => Some([x, y]) case _ => None
  {
    hide Hoist, Emit;
    assert [a, b][1..] == [b];
    OfSingle(b, f, QuietWorld(), []);
    if Emit(a, h).Some? && Emit(b, h).Some? {
      assert [Emit(a, h).value] + [Emit(b, h).value] == [Emit(a, h).value, Emit(b, h).value];
    }
  }

  lemma AndThenTryLowers()
    ensures var es, g := AndThenTry(), Gen(map[], 0, []);
            && Unhoisted(es, g) && !StrictlyHoistable(es)
            && Lower(es, RESULT_FRAME, g) == Some((AfterAndThenTry(), AndThenTryInGo()))
  {
    var f, g := RESULT_FRAME, Gen(map[], 0, []);
    var e := Node(0, ArithNode, [Guarded(), Tried()]);
    OfSingle(e, f, QuietWorld(), []);
    PairWalks(Guarded(), Tried());
    PairLowers(Guarded(), Tried(), f, g, AfterAndThenTry().tryHoist);
    assert HoistAll(AndThenTry(), f, g) == Some(AfterAndThenTry());
    assert EmitAll(AndThenTry(), AfterAndThenTry().tryHoist) == Some(AndThenTryInGo());
  }

  lemma AndThenTryIsTree()
    ensures UniqueAll(AndThenTry())
  {
    var e, ops := AndThenTry()[0], [Guarded(), Tried()];
    assert AndThenTry()[1..] == [] && ops[1..] == [Tried()] && [Tried()][1..] == [];
    assert Ids(Guarded()) == {1, 2, 3} && IdsAll([Tried()]) == {4, 5};
    assert UniqueAll(ops) && IdsAll(ops) == {1, 2, 3, 4, 5};
  }

  /** `(a && f()) == try g()` calls f and then g; the Go program calls g and then f, whatever its order
      of evaluation. */
  lemma EffectIsReordered()
    ensures var es, g, w := AndThenTry(), Gen(map[], 0, []), QuietWorld();
            && UniqueAll(es) && Unhoisted(es, g) && Lower(es, RESULT_FRAME, g).Some? && !StrictlyHoistable(es)
            && var (g1, gs) := Lower(es, RESULT_FRAME, g).value;
               && EvalAll(es, RESULT_FRAME, w, []) == Val([Atom(0)], [Event(3, []), Event(5, [])])
               && g.out <= g1.out
               && AlwaysRuns(Added(g, g1), gs, w, map[], [], Val([Atom(0)], [Event(5, []), Event(3, [])]))
  {
    hide UniqueAll, StrictlyHoistable, Unhoisted, Lower, AlwaysRuns;
    AndThenTryIsTree();
    AndThenTryLowers();
    AndThenTryRuns();
    AndThenTryRunsInGo();
    assert Added(Gen(map[], 0, []), AfterAndThenTry()) == BailCode(1, GoOpaque(5), RESULT_FRAME);
    AndThenTryIsSettled();
    SettledRuns(BailCode(1, GoOpaque(5), RESULT_FRAME), AndThenTryInGo(), {}, QuietWorld(), map[], []);
  }

  lemma AndThenTryIsSettled()
    ensures Frames(BailCode(1, GoOpaque(5), RESULT_FRAME), {}) && Steady(QuietWorld(), {})
    ensures ClearStmt(AndThenTryInGo(), {}) && TreeAll(PhaseOne(AndThenTryInGo()))
  {
    var l, r := GoLogic(1, GoRead(2), GoOpaque(3)), GoPayload(1);
    var ops := [l, r];
    assert ops[1..] == [r];
    OneClear(r);
    assert Late(l, true) == {} && Late(l, false) == {} && Clear(l, {}) && Tree(l) && Moments(l) == {1, 2, 3};
    NodeOfTwo(0, l, r);
  }

  lemma NodeOfTwo(id: int, l: GoExpr, r: GoExpr)
    requires Late(l, true) == {} && Late(l, false) == {} && Clear(l, {}) && Clear(r, {}) && Tree(l) && Tree(r)
    requires Early(r, true) == {} && Early(r, false) == {} && Moments(l) !! Moments(r)
    requires id !in Moments(l) + Moments(r)
    ensures var gs := [GoNode(id, ArithNode, [l, r])]; ClearStmt(gs, {}) && TreeAll(PhaseOne(gs))
  {
    hide Late, Early, Clear, Tree, Moments;
    var ops := [l, r];
    assert ops[1..] == [r];
    OneClear(r);
    OneClear(GoNode(id, ArithNode, ops));
    assert ClearAll(ops, {}) && TreeAll(ops) && MomentsAll(ops) == Moments(l) + Moments(r);
    assert Clear(GoNode(id, ArithNode, ops), {}) && Tree(GoNode(id, ArithNode, ops)) by { NodeOf(id, ops); }
  }

  lemma NodeOf(id: int, ops: seq<GoExpr>)
    ensures Clear(GoNode(id, ArithNode, ops), {}) == ClearAll(ops, {})
    ensures Tree(GoNode(id, ArithNode, ops)) == (id !in MomentsAll(ops) && TreeAll(ops))
  {
  }

  /** The list walks on one expression. */
  lemma OneClear(e: GoExpr)
    ensures ClearAll([e], {}) == Clear(e, {}) && TreeAll([e]) == Tree(e) && MomentsAll([e]) == Moments(e)
    ensures CallsAll([e]) == Calls(e) && FailsAll([e]) == Fails(e) && OrdersAll([e]) == Orders(e)
    ensures EarlyAll([e], true) == Early(e, true) && EarlyAll([e], false) == Early(e, false)
  {
    ClearOne(e, {});
  }

  lemma AndThenTryRuns()
    ensures EvalAll(AndThenTry(), RESULT_FRAME, QuietWorld(), []) == Val([Atom(0)], [Event(3, []), Event(5, [])])
  {
    var f, w := RESULT_FRAME, QuietWorld();
    assert [] + [Event(3, [])] == [Event(3, [])];
    assert [Event(3, [])] + [Event(5, [])] == [Event(3, []), Event(5, [])];
    OfPair(Guarded(), Tried(), f, w, []);
    OfSingle(Node(0, ArithNode, [Guarded(), Tried()]), f, w, []);
  }

  lemma AndThenTryRunsInGo()
    ensures Run(BailCode(1, GoOpaque(5), RESULT_FRAME), AndThenTryInGo(), QuietWorld(), map[], [])
            == Val([Atom(0)], [Event(5, []), Event(3, [])])
  {
    var w, temps: Temps := QuietWorld(), map[1 := Atom(0)];
    assert [] + [Event(5, [])] == [Event(5, [])];
    assert [Event(5, [])] + [Event(3, [])] == [Event(5, []), Event(3, [])];
    BailCodeRuns(1, GoOpaque(5), RESULT_FRAME, w, map[], []);
    var l, r := GoLogic(1, GoRead(2), GoOpaque(3)), GoPayload(1);
    assert [l] + [r] == [l, r];
    GoPair(l, r, w, temps, [Event(5, [])]);
    var gs := AndThenTryInGo();
    assert gs[1..] == [] && [Atom(0)] + [] == [Atom(0)];
    assert GoEvalAll(gs[1..], w, temps, [Event(5, []), Event(3, [])]) == Val([], [Event(5, []), Event(3, [])]);
  }

  // ---------------------------------------------------------------- a read that is moved

  /** A world whose reads see how many events have passed, and whose indices are out of range. */
  function CountingWorld(): World {
    World(_ => Atom(0), (_, _, tr: Trace) => Atom(|tr|), (_, vs: seq<Value>) => if vs == [] then Atom(0) else vs[0],
          (_, _) => None, (_, _, _) => None, (_, _, _) => Some(Atom(0)), (_, _) => true)
  }

  /** `x` and `try f()` as operands. */
  function ReadThenTry(): seq<Expr> { [Read(1), Try(2, Opaque(3))] }

  function AfterReadThenTry(): Gen { Gen(map[2 := 1], 1, [] + BailCode(1, GoOpaque(3), RESULT_FRAME)) }

  lemma ReadThenTryLowers()
    ensures var es, g := ReadThenTry(), Gen(map[], 0, []);
            && UniqueAll(es) && Unhoisted(es, g) && StrictlyHoistable(es) && !InPlaceAll(es, {})
            && Lower(es, RESULT_FRAME, g) == Some((AfterReadThenTry(), [GoRead(1), GoPayload(1)]))
  {
    var es, t, f, g := ReadThenTry(), Try(2, Opaque(3)), RESULT_FRAME, Gen(map[], 0, []);
    assert es[1..] == [t];
    OfSingle(t, f, CountingWorld(), []);
    PairWalks(es[0], t);
    PairLowers(es[0], t, f, g, AfterReadThenTry().tryHoist);
    ReadThenTryMoves();
    assert HoistAll(es, f, g) == Some(AfterReadThenTry());
    assert EmitAll(es, AfterReadThenTry().tryHoist) == Some([GoRead(1), GoPayload(1)]);
  }

  lemma ReadThenTryMoves()
    ensures UniqueAll(ReadThenTry()) && !InPlaceAll(ReadThenTry(), {})
  {
    var es, t := ReadThenTry(), Try(2, Opaque(3));
    assert es[1..] == [t] && [t][1..] == [];
    assert 1 in Reads(es[0]) && 3 in TryActsAll([t]);
    assert Ids(es[0]) == {1} && IdsAll([t]) == {2, 3};
  }

  /** With operands `x` and `try f()`, the read of x moves behind the call. */
  lemma ReadIsReordered()
    ensures var es, g, w := ReadThenTry(), Gen(map[], 0, []), CountingWorld();
            && UniqueAll(es) && Unhoisted(es, g) && Lower(es, RESULT_FRAME, g).Some?
            && StrictlyHoistable(es) && !InPlaceAll(es, {})
            && var (g1, gs) := Lower(es, RESULT_FRAME, g).value;
               && EvalAll(es, RESULT_FRAME, w, []) == Val([Atom(0), Atom(0)], [Event(3, [])])
               && g.out <= g1.out
               && AlwaysRuns(Added(g, g1), gs, w, map[], [], Val([Atom(1), Atom(0)], [Event(3, [])]))
  {
    hide InPlaceAll, UniqueAll, StrictlyHoistable, Unhoisted, Lower, AlwaysRuns;
    ReadThenTryLowers();
    ReadThenTryRuns();
    ReadThenTryRunsInGo();
    assert Added(Gen(map[], 0, []), AfterReadThenTry()) == BailCode(1, GoOpaque(3), RESULT_FRAME);
    ReadThenTryIsSettled();
    SettledRuns(BailCode(1, GoOpaque(3), RESULT_FRAME), [GoRead(1), GoPayload(1)], {}, CountingWorld(), map[], []);
  }

  lemma ReadThenTryIsSettled()
    ensures Frames(BailCode(1, GoOpaque(3), RESULT_FRAME), {}) && Steady(CountingWorld(), {})
    ensures var gs := [GoRead(1), GoPayload(1)]; ClearStmt(gs, {}) && TreeAll(PhaseOne(gs))
  {
    var gs, r := [GoRead(1), GoPayload(1)], GoPayload(1);
    assert gs[1..] == [r];
    OneClear(r);
  }

  lemma ReadThenTryRuns()
    ensures EvalAll(ReadThenTry(), RESULT_FRAME, CountingWorld(), []) == Val([Atom(0), Atom(0)], [Event(3, [])])
  {
    assert [] + [Event(3, [])] == [Event(3, [])];
    OfPair(Read(1), Try(2, Opaque(3)), RESULT_FRAME, CountingWorld(), []);
  }

  lemma ReadThenTryRunsInGo()
    ensures Run(BailCode(1, GoOpaque(3), RESULT_FRAME), [GoRead(1), GoPayload(1)], CountingWorld(), map[], [])
            == Val([Atom(1), Atom(0)], [Event(3, [])])
  {
    assert [] + [Event(3, [])] == [Event(3, [])];
    assert [GoRead(1)] + [GoPayload(1)] == [GoRead(1), GoPayload(1)];
    BailCodeRuns(1, GoOpaque(3), RESULT_FRAME, CountingWorld(), map[], []);
    GoPair(GoRead(1), GoPayload(1), CountingWorld(), map[1 := Atom(0)], [Event(3, [])]);
  }

  lemma GoPair(a: GoExpr, b: GoExpr, w: World, temps: Temps, tr: Trace)
    requires GoEval(a, w, temps, tr).Val? && GoEval(b, w, temps, GoEval(a, w, temps, tr).tr).Val?
    ensures var x := GoEval(a, w, temps, tr);
            var y := GoEval(b, w, temps, x.tr);
            GoEvalAll([a] + [b], w, temps, tr) == Val([x.x, y.x], y.tr)
  {
    var es := [a] + [b];
    var rest := es[1..];
    assert rest == [b] && rest[1..] == [];
    var y := GoEval(b, w, temps, GoEval(a, w, temps, tr).tr);
    assert [y.x] + [] == [y.x] && [GoEval(a, w, temps, tr).x] + [y.x] == [GoEval(a, w, temps, tr).x, y.x];
    assert GoEvalAll(rest, w, temps, GoEval(a, w, temps, tr).tr) == Val([y.x] + [], y.tr);
  }

  // ---------------------------------------------------------------- what Go does not order

  /** A statement without a `try` lowers to what it is. */
  lemma LowersAsIs(es: seq<Expr>, f: Frame, g: Gen, gs: seq<GoExpr>)
    requires HoistAll(es, f, g) == Some(g) && WalkAll(es, false).Some? && EmitAll(es, g.tryHoist) == Some(gs)
    ensures Lower(es, f, g) == Some((g, gs)) && Added(g, g) == []
  {
  }

  const START: Gen := Gen(map[], 0, [])

  /** `[x, f()]`. */
  function Display(): seq<Expr> { [Node(0, SliceNode, [Read(1), Node(2, CallNode, [])])] }

  function DisplayInGo(): seq<GoExpr> { [GoNode(0, SliceNode, [GoRead(1), GoNode(2, CallNode, [])])] }

  lemma DisplayLowers()
    ensures UniqueAll(Display()) && Unhoisted(Display(), START)
    ensures StrictlyHoistable(Display()) && InPlaceAll(Display(), {})
    ensures Lower(Display(), RESULT_FRAME, START) == Some((START, DisplayInGo()))
  {
    var es, x, call := Display(), Read(1), Node(2, CallNode, []);
    var ops := [x, call];
    assert ops[1..] == [call];
    PairWalks(x, call);
    PairLowers(x, call, RESULT_FRAME, START, map[]);
    OfSingle(es[0], RESULT_FRAME, QuietWorld(), []);
    assert es[1..] == [] && [call][1..] == [];
    assert IdsAll([call]) == {2} && TryActsAll([call]) == {} && TryActsAll([]) == {};
    assert UniqueAll(ops) && IdsAll(ops) == {1, 2} && InPlaceAll(ops, {});
    LowersAsIs(es, RESULT_FRAME, START, DisplayInGo());
  }

  /** A floating operand in front of a call. */
  lemma PairIsLoose(k: GoExpr, x: GoExpr, y: GoExpr, a: int, b: int, fails: bool)
    requires k.GoNode? && !k.kind.ElementPlace? && k.operands == [x, y] && a in Late(x, fails) && b in Calls(y)
    ensures !ClearStmt([k], {})
  {
    hide Late, Early, Calls, Fails;
    assert k.operands[1..] == [y];
    OneClear(y);
    OneClear(k);
    assert b in CallsAll(k.operands[1..]);
  }

  lemma PairSkeleton(id: int, k: Kind, x: Expr, y: Expr)
    ensures Skeletons([Node(id, k, [x, y])]) == [GoNode(id, k, [Skeleton(x), Skeleton(y)])]
  {
    OneSkeleton(y);
    assert [x, y][1..] == [y] && [Skeleton(x)] + [Skeleton(y)] == [Skeleton(x), Skeleton(y)];
    assert Skeletons([x, y]) == [Skeleton(x), Skeleton(y)];
    OneSkeleton(Node(id, k, [x, y]));
  }

  lemma OneSkeleton(e: Expr)
    ensures Skeletons([e]) == [Skeleton(e)]
  {
    assert [e][1..] == [] && [Skeleton(e)] + [] == [Skeleton(e)];
  }

  lemma DisplayIsLoose()
    ensures !Settled(Display(), {})
  {
    var call := GoNode(2, CallNode, []);
    PairSkeleton(0, SliceNode, Read(1), Node(2, CallNode, []));
    PairIsLoose(GoNode(0, SliceNode, [GoRead(1), call]), GoRead(1), call, 1, 2, false);
  }

  /** Of `[x, f()]` the specification of Go leaves open whether x is read before f is called. */
  lemma ElementMayBeReadLate()
    ensures var es, w := Display(), CountingWorld();
            && UniqueAll(es) && Unhoisted(es, START) && StrictlyHoistable(es) && InPlaceAll(es, {}) && !Settled(es, {})
            && Lower(es, RESULT_FRAME, START) == Some((START, DisplayInGo()))
            && EvalAll(es, RESULT_FRAME, w, []) == Val([Atom(0)], [Event(2, [])])
            && RunBy([], DisplayInGo(), [], [1, 2], w, map[], []) == Some(Val([Atom(0)], [Event(2, [])]))
            && RunBy([], DisplayInGo(), [], [2, 1], w, map[], []) == Some(Val([Atom(1)], [Event(2, [])]))
  {
    hide UniqueAll, Unhoisted, StrictlyHoistable, InPlaceAll, Settled, Lower;
    DisplayLowers();
    DisplayIsLoose();
    DisplayRuns();
    DisplayReadFirst();
    DisplayCallFirst();
  }

  lemma DisplayRuns()
    ensures EvalAll(Display(), RESULT_FRAME, CountingWorld(), []) == Val([Atom(0)], [Event(2, [])])
  {
    assert [] + [Event(2, [])] == [Event(2, [])];
    OfPair(Read(1), Node(2, CallNode, []), RESULT_FRAME, CountingWorld(), []);
    OfSingle(Display()[0], RESULT_FRAME, CountingWorld(), []);
  }

  lemma DisplayReadFirst()
    ensures RunBy([], DisplayInGo(), [], [1, 2], CountingWorld(), map[], []) == Some(Val([Atom(0)], [Event(2, [])]))
  {
    hide CountingWorld, FireAll, HasAll, ValuesOf;
    var c, called := Context(CountingWorld(), map[]), [Event(2, [])];
    assert [] + called == called;
    DisplayInGoSteps(map[], []);
    DisplayInGoSteps(map[1 := Atom(0)], []);
    TwoSteps(DisplayInGo(), 1, 2, c);
    DisplayInGoSteps(map[1 := Atom(0)][2 := Atom(0)], called);
  }

  lemma DisplayCallFirst()
    ensures RunBy([], DisplayInGo(), [], [2, 1], CountingWorld(), map[], []) == Some(Val([Atom(1)], [Event(2, [])]))
  {
    hide CountingWorld, FireAll, HasAll, ValuesOf;
    var c, called := Context(CountingWorld(), map[]), [Event(2, [])];
    assert [] + called == called;
    DisplayInGoSteps(map[], []);
    DisplayInGoSteps(map[2 := Atom(0)], called);
    TwoSteps(DisplayInGo(), 2, 1, c);
    DisplayInGoSteps(map[2 := Atom(0)][1 := Atom(1)], called);
  }

  /** The read and the call may happen in any order. */
  lemma DisplayInGoSteps(m: Done, tr: Trace)
    ensures var es, c := DisplayInGo(), Context(CountingWorld(), map[]);
            && FireAll(es, 1, true, c, m, tr) == (if 1 in m then None else Some(Val(Atom(|tr|), tr)))
            && FireAll(es, 2, true, c, m, tr) == (if 2 in m then None else Some(Val(Atom(0), tr + [Event(2, [])])))
            && (HasAll(es, c, m) <==> 1 in m && 2 in m) && ValuesOf(es, c, m) == [At(m, 1)]
  {
    var c, call := Context(CountingWorld(), map[]), GoNode(2, CallNode, []);
    var ops := [GoRead(1), call];
    var e := GoNode(0, SliceNode, ops);
    assert ops[1..] == [call];
    FireOne(e, 1, true, c, m, tr);
    FireOne(e, 2, true, c, m, tr);
    FireOne(call, 1, true, c, m, tr);
    FireOne(call, 2, true, c, m, tr);
    HasOne(e, c, m, tr);
    HasOne(call, c, m, tr);
    assert ValuesOf(ops, c, m)[0] == At(m, 1);
  }

  lemma TwoSteps(es: seq<GoExpr>, n1: int, n2: int, c: Context)
    requires var o := FireAll(es, n1, true, c, map[], []);
             && o.Some? && o.value.Val?
             && var o2 := FireAll(es, n2, true, c, map[n1 := o.value.x], o.value.tr);
                o2.Some? && o2.value.Val?
    ensures var o := FireAll(es, n1, true, c, map[], []).value;
            var o2 := FireAll(es, n2, true, c, map[n1 := o.x], o.tr).value;
            RunAll(es, [n1, n2], true, c, map[], []) == Some(Going(map[n1 := o.x][n2 := o2.x], o2.tr))
  {
    var none: Done := map[];
    var o := FireAll(es, n1, true, c, none, []).value;
    assert none[n1 := o.x] == map[n1 := o.x] && [] + [n1] == [n1] && [n1] + [n2] == [n1, n2];
    OneMore(es, [], n1, true, c, none, []);
    OneMore(es, [n1], n2, true, c, none, []);
  }

  // ---------------------------------------------------------------- a panic and a call

  /** A world whose indices are out of range. */
  function ShortWorld(): World { QuietWorld().(index := (_, _, _) => None) }

  /** `xs[9] = f()`. */
  function Store(): seq<Expr> { [Place(), Node(3, CallNode, [])] }
  function Place(): Expr { Node(0, ElementPlace, [Read(1), Literal(2)]) }

  function StoreInGo(): seq<GoExpr> { [GoNode(0, ElementPlace, [GoRead(1), GoLiteral(2)]), GoNode(3, CallNode, [])] }

  lemma StoreLowers()
    ensures UniqueAll(Store()) && Unhoisted(Store(), START)
    ensures StrictlyHoistable(Store()) && InPlaceAll(Store(), {})
    ensures Lower(Store(), RESULT_FRAME, START) == Some((START, StoreInGo()))
  {
    var es, call := Store(), Node(3, CallNode, []);
    var ops := [Read(1), Literal(2)];
    assert es[1..] == [call] && [call][1..] == [] && ops[1..] == [Literal(2)] && [Literal(2)][1..] == [];
    PairWalks(Read(1), Literal(2));
    PairLowers(Read(1), Literal(2), RESULT_FRAME, START, map[]);
    PairWalks(Place(), call);
    PairLowers(Place(), call, RESULT_FRAME, START, map[]);
    assert TryActsAll([Literal(2)]) == {} && TryActsAll([call]) == {} && IdsAll([call]) == {3};
    assert InPlaceAll(ops, {}) && UniqueAll(ops) && IdsAll(ops) == {1, 2};
    LowersAsIs(es, RESULT_FRAME, START, StoreInGo());
  }

  lemma StoreIsLoose()
    ensures !Settled(Store(), {})
  {
    var call := Node(3, CallNode, []);
    var es := Store();
    assert es[1..] == [call] && [call][1..] == [];
    assert Skeletons(es)[1..] == [GoNode(3, CallNode, [])];
    OneClear(GoNode(3, CallNode, []));
    assert 3 in CallsAll(Skeletons(es)[1..]);
  }

  /** `xs[9] = f()` panics before f is called; the Go program calls f first, whatever its order of
      evaluation, since it finds the element in the second phase of the assignment. */
  lemma StoreCallsFirst()
    ensures var es, w := Store(), ShortWorld();
            && UniqueAll(es) && Unhoisted(es, START) && StrictlyHoistable(es) && InPlaceAll(es, {}) && !Settled(es, {})
            && Lower(es, RESULT_FRAME, START) == Some((START, StoreInGo()))
            && EvalAll(es, RESULT_FRAME, w, []) == Panic(0, [])
            && AlwaysRuns([], StoreInGo(), w, map[], [], Panic(0, [Event(3, [])]))
  {
    hide UniqueAll, Unhoisted, StrictlyHoistable, InPlaceAll, Settled, Lower;
    StoreLowers();
    StoreIsLoose();
    var w := ShortWorld();
    OfPair(Read(1), Literal(2), RESULT_FRAME, w, []);
    assert Eval(Place(), RESULT_FRAME, w, []) == Panic(0, []);
    StoreIsClear();
    forall plan, sched | RunBy([], StoreInGo(), plan, sched, w, map[], []).Some?
      ensures RunBy([], StoreInGo(), plan, sched, w, map[], []).value == Panic(0, [Event(3, [])])
    {
      var c := Context(w, map[]);
      AnyOrderIsInOrder(PhaseOne(StoreInGo()), sched, {1}, c, []);
      StoreInPhases();
    }
  }

  lemma StoreIsClear()
    ensures ClearAll(PhaseOne(StoreInGo()), {1}) && TreeAll(PhaseOne(StoreInGo())) && Steady(ShortWorld(), {1})
  {
    var call := GoNode(3, CallNode, []);
    var es := PhaseOne(StoreInGo());
    assert es == [GoRead(1), GoLiteral(2), call];
    assert es[1..] == [GoLiteral(2), call] && es[1..][1..] == [call] && [call][1..] == [];
    OneClear(call);
    ClearOne(call, {1});
    assert MomentsAll(es[1..]) == {3};
  }

  lemma StoreInPhases()
    ensures InPhases(StoreInGo(), Context(ShortWorld(), map[]), []) == Panic(0, [Event(3, [])])
  {
    var gs, c := StoreInGo(), Context(ShortWorld(), map[]);
    var ops := gs[0].operands;
    StorePhases(gs, c, []);
    assert ops[1..] == [GoLiteral(2)] && gs[1..] == [GoNode(3, CallNode, [])];
    HasOne(GoLiteral(2), c, map[], []);
    HasOne(GoNode(3, CallNode, []), c, map[], []);
    assert [] + [Event(3, [])] == [Event(3, [])];
    assert InOrderAll(gs[1..], c, []).tr == [Event(3, [])];
  }

  /** `xs[9] + f()`. */
  function Addition(): seq<Expr> { [Node(0, ArithNode, [Element(), Node(4, CallNode, [])])] }
  function Element(): Expr { Node(1, IndexNode, [Read(2), Literal(3)]) }

  function AdditionInGo(): seq<GoExpr> { [GoNode(0, ArithNode, [ElementInGo(), GoNode(4, CallNode, [])])] }
  function ElementInGo(): GoExpr { GoNode(1, IndexNode, [GoRead(2), GoLiteral(3)]) }

  lemma AdditionLowers()
    ensures Unhoisted(Addition(), START) && StrictlyHoistable(Addition())
    ensures Lower(Addition(), RESULT_FRAME, START) == Some((START, AdditionInGo()))
  {
    var es, call := Addition(), Node(4, CallNode, []);
    var ops := [Element(), call];
    assert [call][1..] == [] && es[1..] == [];
    PairWalks(Read(2), Literal(3));
    PairLowers(Read(2), Literal(3), RESULT_FRAME, START, map[]);
    PairWalks(Element(), call);
    PairLowers(Element(), call, RESULT_FRAME, START, map[]);
    OfSingle(es[0], RESULT_FRAME, QuietWorld(), []);
    LowersAsIs(es, RESULT_FRAME, START, AdditionInGo());
  }

  lemma AdditionIsInPlace()
    ensures UniqueAll(Addition()) && InPlaceAll(Addition(), {})
  {
    var call := Node(4, CallNode, []);
    var ops, inner := [Element(), call], [Read(2), Literal(3)];
    assert ops[1..] == [call] && [call][1..] == [] && inner[1..] == [Literal(3)] && [Literal(3)][1..] == [] && Addition()[1..] == [];
    assert TryActsAll([Literal(3)]) == {} && TryActsAll([call]) == {};
    assert Ids(call) == {4} && IdsAll([call]) == {4};
    assert InPlaceAll(inner, {}) && UniqueAll(inner) && IdsAll(inner) == {2, 3};
    assert InPlaceAll(ops, {}) && UniqueAll(ops) && IdsAll(ops) == {1, 2, 3, 4};
  }

  lemma AdditionIsLoose()
    ensures !Settled(Addition(), {})
  {
    var x, call := Skeleton(Element()), GoNode(4, CallNode, []);
    PairSkeleton(0, ArithNode, Element(), Node(4, CallNode, []));
    PairIsLoose(GoNode(0, ArithNode, [x, call]), x, call, 1, 4, true);
  }

  /** What may happen in `xs[9] + f()`: the read, then the panic, and the call at any time. */
  lemma AdditionInGoSteps(m: Done, tr: Trace)
    ensures var es, c := AdditionInGo(), Context(ShortWorld(), map[]);
            && FireAll(es, 2, true, c, m, tr) == (if 2 in m then None else Some(Val(Atom(0), tr)))
            && FireAll(es, 4, true, c, m, tr) == (if 4 in m then None else Some(Val(Atom(0), tr + [Event(4, [])])))
            && (1 !in m && 2 in m ==> FireAll(es, 1, true, c, m, tr) == Some(Panic(1, tr)))
  {
    var c, call := Context(ShortWorld(), map[]), GoNode(4, CallNode, []);
    var inner, ops := [GoRead(2), GoLiteral(3)], [ElementInGo(), call];
    assert inner[1..] == [GoLiteral(3)] && inner[1..][1..] == [] && ops[1..] == [call];
    forall n ensures FireAll(AdditionInGo(), n, true, c, m, tr) == FireAll(ops, n, true, c, m, tr) {
      FireOne(GoNode(0, ArithNode, ops), n, true, c, m, tr);
    }
    forall n ensures FireAll(inner, n, true, c, m, tr) == if n == 2 && 2 !in m then Some(Val(Atom(0), tr)) else None {
      FireOne(GoLiteral(3), n, true, c, m, tr);
    }
    FireOne(call, 4, true, c, m, tr);
    FireOne(call, 2, true, c, m, tr);
    assert HasAll(inner, c, m) <==> 2 in m;
    assert CompleteAll(inner, c, m);
  }

  lemma AdditionPanicsFirst()
    ensures RunBy([], AdditionInGo(), [], [2, 1], ShortWorld(), map[], []) == Some(Panic(1, []))
  {
    hide ShortWorld, FireAll;
    var es, c, none: Done := AdditionInGo(), Context(ShortWorld(), map[]), map[];
    AdditionInGoSteps(none, []);
    AdditionInGoSteps(none[2 := Atom(0)], []);
    assert [] + [2] == [2] && [2] + [1] == [2, 1];
    OneMore(es, [], 2, true, c, none, []);
    OneMore(es, [2], 1, true, c, none, []);
  }

  lemma AdditionCallsFirst()
    ensures RunBy([], AdditionInGo(), [], [2, 4, 1], ShortWorld(), map[], []) == Some(Panic(1, [Event(4, [])]))
  {
    hide ShortWorld, FireAll;
    var es, c, none: Done := AdditionInGo(), Context(ShortWorld(), map[]), map[];
    AdditionInGoSteps(none, []);
    AdditionInGoSteps(none[2 := Atom(0)], []);
    AdditionInGoSteps(none[2 := Atom(0)][4 := Atom(0)], [Event(4, [])]);
    assert [] + [2] == [2] && [2] + [4] == [2, 4] && [2, 4] + [1] == [2, 4, 1] && [] + [Event(4, [])] == [Event(4, [])];
    OneMore(es, [], 2, true, c, none, []);
    OneMore(es, [2], 4, true, c, none, []);
    OneMore(es, [2, 4], 1, true, c, none, []);
  }

  /** Of `xs[9] + f()` the specification of Go leaves open whether it panics before f is called. */
  lemma AdditionMayCallFirst()
    ensures var es, w := Addition(), ShortWorld();
            && UniqueAll(es) && Unhoisted(es, START) && StrictlyHoistable(es) && InPlaceAll(es, {}) && !Settled(es, {})
            && Lower(es, RESULT_FRAME, START) == Some((START, AdditionInGo()))
            && EvalAll(es, RESULT_FRAME, w, []) == Panic(1, [])
            && RunBy([], AdditionInGo(), [], [2, 1], w, map[], []) == Some(Panic(1, []))
            && RunBy([], AdditionInGo(), [], [2, 4, 1], w, map[], []) == Some(Panic(1, [Event(4, [])]))
  {
    hide UniqueAll, Unhoisted, StrictlyHoistable, InPlaceAll, Settled, Lower, RunBy;
    AdditionLowers();
    AdditionIsInPlace();
    AdditionIsLoose();
    AdditionPanicsFirst();
    AdditionCallsFirst();
    var w := ShortWorld();
    OfPair(Read(2), Literal(3), RESULT_FRAME, w, []);
    assert Eval(Element(), RESULT_FRAME, w, []) == Panic(1, []);
    OfSingle(Addition()[0], RESULT_FRAME, w, []);
  }
}
