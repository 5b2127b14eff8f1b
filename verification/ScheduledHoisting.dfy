/**
 Hoisting under every order of evaluation that Go allows: the lowered statement, run by any
 schedules, is left-to-right evaluation of the source.
 */
module ScheduledHoisting {
  import opened Wrappers
  import opened TryHoisting
  import opened TryHoistingProofs
  import opened GoOrder
  import opened GoOrderProofs
  import opened GoSchedules
  import opened MovedEffects

  // ---------------------------------------------------------------- what is emitted has the shape of its source

  lemma {:induction false} SameShape(e: Expr, hoisted: map<int, int>, still: set<int>)
    requires Emit(e, hoisted).Some?
    ensures var g, k := Emit(e, hoisted).value, Skeleton(e);
            && Calls(g) == Calls(k) && Fails(g) == Fails(k) && Orders(g) == Orders(k)
            && Late(g, true) == Late(k, true) && Late(g, false) == Late(k, false)
            && Early(g, true) == Early(k, true) && Early(g, false) == Early(k, false)
            && Clear(g, still) == Clear(k, still)
    decreases e, 1
  {
    match e
    case Node(_, _, operands) => SameShapes(operands, hoisted, still);
    case Logic(_, left, right) => SameShape(left, hoisted, still); SameShape(right, hoisted, still);
    case _ =>
  }

  lemma {:induction false} SameShapes(es: seq<Expr>, hoisted: map<int, int>, still: set<int>)
    requires EmitAll(es, hoisted).Some?
    ensures var gs, ks := EmitAll(es, hoisted).value, Skeletons(es);
            && |gs| == |ks| == |es|
            && CallsAll(gs) == CallsAll(ks) && FailsAll(gs) == FailsAll(ks) && OrdersAll(gs) == OrdersAll(ks)
            && LateAll(gs, true) == LateAll(ks, true) && LateAll(gs, false) == LateAll(ks, false)
            && EarlyAll(gs, true) == EarlyAll(ks, true) && EarlyAll(gs, false) == EarlyAll(ks, false)
            && ClearAll(gs, still) == ClearAll(ks, still)
    decreases es, 0
  {
    if es != [] {
      SameShape(es[0], hoisted, still);
      SameShapes(es[1..], hoisted, still);
      assert EmitAll(es, hoisted).value[1..] == EmitAll(es[1..], hoisted).value;
      assert Skeletons(es)[1..] == Skeletons(es[1..]);
    }
  }

  /** It is a tree, over nodes outside the hoisted `try`s. */
  lemma {:induction false} EmitTree(e: Expr, hoisted: map<int, int>)
    requires Emit(e, hoisted).Some?
    ensures Moments(Emit(e, hoisted).value) <= Ids(e)
    ensures Unique(e) ==> Tree(Emit(e, hoisted).value) && Moments(Emit(e, hoisted).value) !! InTries(e)
    decreases e, 1
  {
    Containment(e);
    match e
    case Node(_, _, operands) => EmitTrees(operands, hoisted); ContainmentAll(operands);
    case Logic(_, left, right) =>
      EmitTree(left, hoisted);
      EmitTree(right, hoisted);
      Containment(left);
    case _ =>
  }

  lemma {:induction false} EmitTrees(es: seq<Expr>, hoisted: map<int, int>)
    requires EmitAll(es, hoisted).Some?
    ensures MomentsAll(EmitAll(es, hoisted).value) <= IdsAll(es)
    ensures UniqueAll(es) ==>
              TreeAll(EmitAll(es, hoisted).value) && MomentsAll(EmitAll(es, hoisted).value) !! InTriesAll(es)
    decreases es, 0
  {
    if es != [] {
      EmitTree(es[0], hoisted);
      EmitTrees(es[1..], hoisted);
      Containment(es[0]);
      ContainmentAll(es[1..]);
      assert EmitAll(es, hoisted).value[1..] == EmitAll(es[1..], hoisted).value;
    }
  }

  // ---------------------------------------------------------------- preambles

  /** The expressions that preambles evaluate are trees in which nothing can change places. */
  ghost predicate Frames(ss: seq<GoStmt>, still: set<int>) {
    forall i :: 0 <= i < |ss| && ss[i].Define? ==> Tree(ss[i].e) && Clear(ss[i].e, still)
  }

  ghost predicate Trees(ss: seq<GoStmt>) { forall i :: 0 <= i < |ss| && ss[i].Define? ==> Tree(ss[i].e) }

  /** One schedule for each definition. */
  predicate Fits(plan: seq<seq<int>>, ss: seq<GoStmt>)
    decreases |ss|
  {
    if ss == [] then plan == []
    else if ss[0].Define? then plan != [] && Fits(plan[1..], ss[1..]) else Fits(plan, ss[1..])
  }

  lemma {:induction false} ExecByConcat(
    a: seq<GoStmt>, b: seq<GoStmt>, plan: seq<seq<int>>, plan2: seq<seq<int>>, w: World, temps: Temps, tr: Trace)
    requires Fits(plan, a)
    ensures ExecBy(a + b, plan + plan2, w, temps, tr) ==
            match ExecBy(a, plan, w, temps, tr)
            case Some(Val(temps', tr')) => ExecBy(b, plan2, w, temps', tr')
            case stop => stop
    ensures Fits(plan2, b) ==> Fits(plan + plan2, a + b)
    decreases |a|
  {
    if a == [] {
      assert a + b == b && plan + plan2 == plan2;
    } else {
      assert (a + b)[0] == a[0] && (a + b)[1..] == a[1..] + b;
      match a[0]
      case Define(tmp, e) =>
        assert (plan + plan2)[0] == plan[0] && (plan + plan2)[1..] == plan[1..] + plan2;
        var o := Ends([e], plan[0], Context(w, temps), tr);
        if o.Some? && o.value.Val? && |o.value.x| == 1 {
          ExecByConcat(a[1..], b, plan[1..], plan2, w, temps[tmp := o.value.x[0]], o.value.tr);
        } else {
          ExecByConcat(a[1..], b, plan[1..], plan2, w, temps, tr);
        }
      case BailIf(tmp, tag, ret) =>
        ExecByConcat(a[1..], b, plan, plan2, w, temps, tr);
    }
  }

  /** The lexical order as a plan. */
  lemma {:induction false} LexicalPlan(ss: seq<GoStmt>, w: World, temps: Temps, tr: Trace) returns (plan: seq<seq<int>>)
    requires Trees(ss)
    ensures Fits(plan, ss) && ExecBy(ss, plan, w, temps, tr) == Some(Exec(ss, w, temps, tr))
    decreases |ss|
  {
    plan := [];
    if ss != [] {
      assert Trees(ss[1..]) by { TreesOfTail(ss); }
      match ss[0]
      case Define(tmp, e) =>
        var c := Context(w, temps);
        FireOne(e, 0, true, c, map[], tr);
        HasOne(e, c, map[], tr);
        var s := LexicalEnds([e], c, tr);
        var o := GoEval(e, w, temps, tr);
        var rest := LexicalPlan(ss[1..], w, if o.Val? then temps[tmp := o.x] else temps, o.tr);
        plan := [s] + rest;
      case BailIf(tmp, tag, ret) =>
        plan := LexicalPlan(ss[1..], w, temps, tr);
    }
  }

  lemma TreesOfTail(ss: seq<GoStmt>)
    requires Trees(ss) && ss != []
    ensures Trees(ss[1..])
  {
    forall i | 0 <= i < |ss[1..]| && ss[1..][i].Define? ensures Tree(ss[1..][i].e) { assert ss[1..][i] == ss[i + 1]; }
  }

  /** Where nothing can change places that matters, any plan runs as the lexical order does. */
  lemma {:induction false} AnyPlanIsInOrder(
    ss: seq<GoStmt>, plan: seq<seq<int>>, still: set<int>, w: World, temps: Temps, tr: Trace)
    requires Frames(ss, still) && Steady(w, still) && ExecBy(ss, plan, w, temps, tr).Some?
    ensures ExecBy(ss, plan, w, temps, tr).value == Exec(ss, w, temps, tr)
    decreases |ss|
  {
    if ss != [] {
      FramesOfTail(ss, still);
      match ss[0]
      case Define(tmp, e) =>
        var c := Context(w, temps);
        FireOne(e, 0, true, c, map[], tr);
        HasOne(e, c, map[], tr);
        ClearOne(e, still);
        AnyOrderIsInOrder([e], plan[0], still, c, tr);
        var o := GoEval(e, w, temps, tr);
        if o.Val? { AnyPlanIsInOrder(ss[1..], plan[1..], still, w, temps[tmp := o.x], o.tr); }
      case BailIf(tmp, tag, ret) =>
        var v := ReadTemp(temps, tmp);
        if TagOf(v) != tag { AnyPlanIsInOrder(ss[1..], plan, still, w, temps, tr); }
    }
  }

  lemma FramesOfTail(ss: seq<GoStmt>, still: set<int>)
    requires Frames(ss, still) && ss != []
    ensures Frames(ss[1..], still)
  {
    forall i | 0 <= i < |ss[1..]| && ss[1..][i].Define? ensures Tree(ss[1..][i].e) && Clear(ss[1..][i].e, still) {
      assert ss[1..][i] == ss[i + 1];
    }
  }

  lemma ClearOne(e: GoExpr, still: set<int>)
    ensures ClearAll([e], still) == Clear(e, still)
  {
    assert [e][1..] == [];
    assert CallsAll([e][1..]) == {} && FailsAll([e][1..]) == {};
    assert EarlyAll([e][1..], true) == {} && EarlyAll([e][1..], false) == {} && ClearAll([e][1..], still);
  }

  // ---------------------------------------------------------------- the preambles of a statement

  lemma FramesJoin(a: seq<GoStmt>, b: seq<GoStmt>, still: set<int>)
    ensures Trees(a) && Trees(b) ==> Trees(a + b)
    ensures Frames(a, still) && Frames(b, still) ==> Frames(a + b, still)
  {
  }

  lemma {:induction false} PreambleFrames(e: Expr, f: Frame, g: Gen, hoisted: map<int, int>, still: set<int>)
    requires Lowered(e, f, g, hoisted)
    ensures Trees(Added(g, Hoist(e, f, g).value))
    ensures Framed(e, still) ==> Frames(Added(g, Hoist(e, f, g).value), still)
    decreases e, 1
  {
    hide Walk, Distinct, Untouched, TryHoistingProofs.Agrees, TrySet, Emit, Unique, Hoist;
    LoweredParts(e, f, g, hoisted);
    match e
    case Node(_, _, operands) => PreamblesFrames(operands, f, g, hoisted, still);
    case Logic(_, left, _) => PreambleFrames(left, f, g, hoisted, still);
    case Try(id, inner) =>
      LoweredTry(id, inner, f, g, hoisted);
      var gi := Hoist(inner, f, g).value;
      PreambleFrames(inner, f, g, gi.tryHoist, still);
      EmitTree(inner, gi.tryHoist);
      SameShape(inner, gi.tryHoist, still);
      assert Unique(inner) by { UniqueInner(id, inner, f, g, gi.tryHoist); }
      var code := BailCode(gi.counter + 1, Emit(inner, gi.tryHoist).value, f);
      FramesJoin(Added(g, gi), code, still);
    case _ => NoAdded(e, f, g);
  }

  lemma UniqueInner(id: int, inner: Expr, f: Frame, g: Gen, h: map<int, int>)
    requires Lowered(inner, f, g, h)
    ensures Unique(inner)
  {
  }

  lemma NoAdded(e: Expr, f: Frame, g: Gen)
    requires e.Literal? || e.Read? || e.Opaque?
    ensures Hoist(e, f, g) == Some(g) && Added(g, g) == []
  {
  }

  lemma {:induction false} PreamblesFrames(es: seq<Expr>, f: Frame, g: Gen, hoisted: map<int, int>, still: set<int>)
    requires LoweredAll(es, f, g, hoisted)
    ensures Trees(Added(g, HoistAll(es, f, g).value))
    ensures FramedAll(es, still) ==> Frames(Added(g, HoistAll(es, f, g).value), still)
    decreases es, 0
  {
    hide Walk, Emit, Trees, Frames;
    if es == [] {
      assert Added(g, g) == [];
      NoFrames(still);
    } else {
      LoweredCons(es, f, g, hoisted);
      var g1 := Hoist(es[0], f, g).value;
      PreambleFrames(es[0], f, g, hoisted, still);
      PreamblesFrames(es[1..], f, g1, hoisted, still);
      FramesJoin(Added(g, g1), Added(g1, HoistAll(es, f, g).value), still);
    }
  }

  lemma NoFrames(still: set<int>)
    ensures Trees([]) && Frames([], still)
  {
  }

  // ---------------------------------------------------------------- the two phases of an assignment

  /** The source of phase one. */
  function Opened(es: seq<Expr>): seq<Expr> {
    if es != [] && es[0].Node? && es[0].kind.ElementPlace? then es[0].operands + es[1..] else es
  }

  lemma {:induction false} EmitConcat(a: seq<Expr>, b: seq<Expr>, hoisted: map<int, int>)
    requires EmitAll(b, hoisted).Some?
    ensures EmitAll(a + b, hoisted) ==
            match EmitAll(a, hoisted) case Some(gs) => Some(gs + EmitAll(b, hoisted).value) case None => None
    ensures Skeletons(a + b) == Skeletons(a) + Skeletons(b)
  {
    if a == [] {
      assert a + b == b && [] + EmitAll(b, hoisted).value == EmitAll(b, hoisted).value;
    } else {
      assert (a + b)[0] == a[0] && (a + b)[1..] == a[1..] + b;
      EmitConcat(a[1..], b, hoisted);
      assert [Skeleton(a[0])] + (Skeletons(a[1..]) + Skeletons(b)) == Skeletons(a) + Skeletons(b);
      if EmitAll(a, hoisted).Some? {
        var x, xs, ys := Emit(a[0], hoisted).value, EmitAll(a[1..], hoisted).value, EmitAll(b, hoisted).value;
        assert [x] + (xs + ys) == [x] + xs + ys;
      }
    }
  }

  lemma {:induction false} IdsConcat(a: seq<Expr>, b: seq<Expr>)
    ensures IdsAll(a + b) == IdsAll(a) + IdsAll(b) && InTriesAll(a + b) == InTriesAll(a) + InTriesAll(b)
    ensures UniqueAll(a) && UniqueAll(b) && IdsAll(a) !! IdsAll(b) ==> UniqueAll(a + b)
  {
    if a == [] {
      assert a + b == b;
    } else {
      assert (a + b)[0] == a[0] && (a + b)[1..] == a[1..] + b;
      IdsConcat(a[1..], b);
    }
  }

  lemma OpenedIds(es: seq<Expr>)
    ensures InTriesAll(Opened(es)) == InTriesAll(es) && IdsAll(Opened(es)) <= IdsAll(es)
    ensures UniqueAll(es) ==> UniqueAll(Opened(es))
  {
    if Opened(es) != es {
      IdsConcat(es[0].operands, es[1..]);
      assert UniqueAll(es) ==> Unique(es[0]) && IdsAll(es[0].operands) !! IdsAll(es[1..]);
    }
  }

  /** Phase one of what is emitted is what phase one of the source emits. */
  lemma OpenedEmits(es: seq<Expr>, hoisted: map<int, int>)
    requires EmitAll(es, hoisted).Some?
    ensures EmitAll(Opened(es), hoisted) == Some(PhaseOne(EmitAll(es, hoisted).value))
    ensures PhaseOne(Skeletons(es)) == Skeletons(Opened(es))
    ensures IsStore(EmitAll(es, hoisted).value) == IsStore(Skeletons(es))
  {
    if es != [] {
      OpenedTail(es, hoisted);
      var g := EmitAll(es, hoisted).value[0];
      match es[0]
      case Node(id, k, operands) =>
        assert g == GoNode(id, k, EmitAll(operands, hoisted).value);
        if k.ElementPlace? { EmitConcat(operands, es[1..], hoisted); }
      case _ => assert !g.GoNode? && !Skeleton(es[0]).GoNode?;
    }
  }

  lemma OpenedTail(es: seq<Expr>, hoisted: map<int, int>)
    requires es != [] && EmitAll(es, hoisted).Some?
    ensures EmitAll(es[1..], hoisted).Some? && EmitAll(es, hoisted).value[1..] == EmitAll(es[1..], hoisted).value
    ensures Emit(es[0], hoisted).Some? && EmitAll(es, hoisted).value[0] == Emit(es[0], hoisted).value
    ensures Skeletons(es)[1..] == Skeletons(es[1..]) && Skeletons(es)[0] == Skeleton(es[0])
  {
  }

  /** The condition read off what is emitted. */
  lemma SameStmt(es: seq<Expr>, hoisted: map<int, int>, still: set<int>)
    requires EmitAll(es, hoisted).Some?
    ensures ClearStmt(EmitAll(es, hoisted).value, still) == ClearStmt(Skeletons(es), still)
  {
    OpenedEmits(es, hoisted);
    SameShapes(Opened(es), hoisted, still);
    if es != [] {
      SameShapes(es[1..], hoisted, still);
      OpenedTail(es, hoisted);
    }
  }

  lemma {:induction false} InOrderConcat(a: seq<GoExpr>, b: seq<GoExpr>, c: Context, tr: Trace)
    ensures InOrderAll(a + b, c, tr) ==
            match InOrderAll(a, c, tr)
            case Val(vs, tr') =>
              (match InOrderAll(b, c, tr') case Val(us, tr'') => Val(vs + us, tr'') case stop => stop)
            case stop => stop
    ensures InOrderAll(a, c, tr).Val? ==> |InOrderAll(a, c, tr).x| == |a|
  {
    if a == [] {
      assert a + b == b;
      var o := InOrderAll(b, c, tr);
      if o.Val? { assert [] + o.x == o.x; }
    } else {
      assert (a + b)[0] == a[0] && (a + b)[1..] == a[1..] + b;
      var o := InOrder(a[0], c, tr);
      if o.Val? {
        InOrderConcat(a[1..], b, c, o.tr);
        var r := InOrderAll(a[1..], c, o.tr);
        if r.Val? {
          var q := InOrderAll(b, c, r.tr);
          if q.Val? { assert [o.x] + (r.x + q.x) == [o.x] + r.x + q.x; }
        }
      }
    }
  }

  /** The lexical order with the store in phase two. */
  function InPhases(gs: seq<GoExpr>, c: Context, tr: Trace): Out<seq<Value>> {
    PhaseTwo(gs, InOrderAll(PhaseOne(gs), c, tr), c.w)
  }

  /** The same behind the run r of the preambles. */
  function RestInPhases(r: Out<Temps>, gs: seq<GoExpr>, w: World): Out<seq<Value>> {
    match r
    case Val(temps, tr) => InPhases(gs, Context(w, temps), tr)
    case stop => Stopped(stop)
  }

  lemma StorePhases(gs: seq<GoExpr>, c: Context, tr: Trace)
    requires IsStore(gs)
    ensures InPhases(gs, c, tr) ==
            match InOrderAll(gs[0].operands, c, tr)
            case Val(vs, tr') =>
              (match InOrderAll(gs[1..], c, tr')
               case Val(us, tr'') =>
                 (match Check(gs[0].id, gs[0].kind, vs, c.w, tr'')
                  case Val(v, tr3) => Val([v] + us, tr3)
                  case stop => Stopped(stop))
               case stop => stop)
            case stop => stop
  {
    InOrderConcat(gs[0].operands, gs[1..], c, tr);
    var o := InOrderAll(gs[0].operands, c, tr);
    if o.Val? {
      var q := InOrderAll(gs[1..], c, o.tr);
      if q.Val? { assert (o.x + q.x)[..|o.x|] == o.x && (o.x + q.x)[|o.x|..] == q.x; }
    }
  }

  /** The phases do not show where the value has no call and cannot panic. */
  lemma PhasesInOrder(gs: seq<GoExpr>, c: Context, tr: Trace)
    requires IsStore(gs) ==> CallsAll(gs[1..]) == {} && FailsAll(gs[1..]) == {}
    ensures InPhases(gs, c, tr) == InOrderAll(gs, c, tr)
  {
    if IsStore(gs) {
      StorePhases(gs, c, tr);
      var o := InOrderAll(gs[0].operands, c, tr);
      AllNoCalls(gs[1..], c, map[], o.tr);
      assert InOrder(gs[0], c, tr) == if o.Val? then Check(gs[0].id, gs[0].kind, o.x, c.w, o.tr) else Stopped(o);
    }
  }

  // ---------------------------------------------------------------- main results

  /** Every plan and schedule that makes a whole run ends as `out` says. */
  ghost predicate AlwaysRuns(pre: seq<GoStmt>, gs: seq<GoExpr>, w: World, temps: Temps, tr: Trace, out: Out<seq<Value>>) {
    forall plan, sched :: RunBy(pre, gs, plan, sched, w, temps, tr).Some? ==>
      RunBy(pre, gs, plan, sched, w, temps, tr).value == out
  }

  lemma SettledRuns(pre: seq<GoStmt>, gs: seq<GoExpr>, still: set<int>, w: World, temps: Temps, tr: Trace)
    requires Frames(pre, still) && ClearStmt(gs, still) && TreeAll(PhaseOne(gs)) && Steady(w, still)
    ensures AlwaysRuns(pre, gs, w, temps, tr, Run(pre, gs, w, temps, tr))
  {
    forall plan, sched | RunBy(pre, gs, plan, sched, w, temps, tr).Some?
      ensures RunBy(pre, gs, plan, sched, w, temps, tr).value == Run(pre, gs, w, temps, tr)
    {
      AnyPlanIsInOrder(pre, plan, still, w, temps, tr);
      var r := Exec(pre, w, temps, tr);
      if r.Val? {
        var c := Context(w, r.x);
        AnyOrderIsInOrder(PhaseOne(gs), sched, still, c, r.tr);
        PhasesInOrder(gs, c, r.tr);
      }
    }
  }

  /** Under every order of evaluation that Go allows, a lowered statement has the same effects in the
      same order, the same panic, the same bail and the same operand values as left-to-right
      evaluation of the source. */
  lemma AnyOrderPreservesMeaning(
    es: seq<Expr>, still: set<int>, f: Frame, g: Gen, w: World, temps: Temps, tr: Trace)
    requires UniqueAll(es) && Unhoisted(es, g) && Fresh(temps, g.counter) && Steady(w, still)
    requires Lower(es, f, g).Some? && StrictlyHoistable(es) && InPlaceAll(es, still) && Settled(es, still)
    ensures var (g1, gs) := Lower(es, f, g).value;
            g.out <= g1.out && AlwaysRuns(Added(g, g1), gs, w, temps, tr, EvalAll(es, f, w, tr))
  {
    hide Steady, Run, EvalAll, Walk;
    LoweringHoistsEveryTryOnce(es, f, g);
    HoistingPreservesMeaning(es, still, f, g, w, temps, tr);
    var (g1, gs) := Lower(es, f, g).value;
    PreamblesFrames(es, f, g, g1.tryHoist, still);
    OpenedEmits(es, g1.tryHoist);
    OpenedIds(es);
    EmitTrees(Opened(es), g1.tryHoist);
    SameStmt(es, g1.tryHoist, still);
    SettledRuns(Added(g, g1), gs, still, w, temps, tr);
  }

  /** The same for a `try` that is the whole value of a statement. */
  lemma AnyOrderOfDirectTry(
    id: int, inner: Expr, still: set<int>, f: Frame, g: Gen, w: World, temps: Temps, tr: Trace)
    requires Unique(Try(id, inner)) && Unhoisted([Try(id, inner)], g) && Fresh(temps, g.counter) && Steady(w, still)
    requires Preamble(inner, f, g).Some? && StrictWalk(inner, false).Some? && InPlace(inner, still)
    requires Framed(Try(id, inner), still)
    ensures var (tmp, g1) := Preamble(inner, f, g).value;
            && g.out <= g1.out
            && AlwaysRuns(Added(g, g1), [GoPayload(tmp)], w, temps, tr, EvalAll([Try(id, inner)], f, w, tr))
  {
    hide Steady, Walk, Run, Eval;
    var e := Try(id, inner);
    var (tmp, g1) := Preamble(inner, f, g).value;
    var g2 := g1.(tryHoist := g1.tryHoist[id := tmp]);
    DirectTryReady(id, inner, still, f, g, temps);
    DirectTryPreservesMeaning(id, inner, still, f, g, w, temps, tr);
    PreambleFrames(e, f, g, g2.tryHoist, still);
    assert Added(g, g1) == Added(g, g2);
    var gs := [GoPayload(tmp)];
    assert gs[1..] == [];
    ClearOne(gs[0], still);
    FireOne(gs[0], 0, true, Context(w, temps), map[], tr);
    SettledRuns(Added(g, g1), gs, still, w, temps, tr);
  }

  /** There is such a run: the lexical order, with the store in phase two. */
  lemma ARunExists(pre: seq<GoStmt>, gs: seq<GoExpr>, w: World, temps: Temps, tr: Trace)
    returns (plan: seq<seq<int>>, sched: seq<int>)
    requires Trees(pre) && TreeAll(PhaseOne(gs))
    ensures RunBy(pre, gs, plan, sched, w, temps, tr) ==
            Some(RestInPhases(Exec(pre, w, temps, tr), gs, w))
  {
    plan := LexicalPlan(pre, w, temps, tr);
    sched := [];
    var r := Exec(pre, w, temps, tr);
    if r.Val? { sched := LexicalEnds(PhaseOne(gs), Context(w, r.x), r.tr); }
  }
}
