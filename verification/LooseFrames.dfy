/**
 The third way hoisting goes wrong, and with no `try` in sight: what Go does not order. For
 every statement that lowers with a frame in which something can change places there is a
 world in which two schedules end differently.
 */
module LooseFrames {
  import opened Wrappers
  import opened TryHoisting
  import opened TryHoistingProofs
  import opened GoOrder
  import opened GoOrderProofs
  import opened GoSchedules
  import opened GoOrderExact
  import opened MovedEffects
  import opened ScheduledHoisting

  // ---------------------------------------------------------------- where

  /** In the frame of a `try` inside e, the nodes a and b can change places. */
  predicate Loose(e: Expr, a: int, b: int, late: bool, p: Pair)
    decreases e, 1
  {
    match e
    case Try(_, inner) => Clashes(Skeleton(inner), a, b, late, p) || Loose(inner, a, b, late, p)
    case Node(_, _, operands) => LooseAll(operands, a, b, late, p)
    case Logic(_, left, _) => Loose(left, a, b, late, p)
    case _ => false
  }

  predicate LooseAll(es: seq<Expr>, a: int, b: int, late: bool, p: Pair)
    decreases es, 0
  {
    es != [] && (Loose(es[0], a, b, late, p) || LooseAll(es[1..], a, b, late, p))
  }

  lemma {:induction false} FindLoose(e: Expr, still: set<int>) returns (a: int, b: int, late: bool, p: Pair)
    requires !Framed(e, still)
    ensures Loose(e, a, b, late, p) && (p.ReadAndCall? ==> a !in still)
    decreases e, 1
  {
    match e
    case Try(_, inner) =>
      if !Framed(inner, still) {
        a, b, late, p := FindLoose(inner, still);
      } else {
        a, b, late, p := FindClash(Skeleton(inner), still);
      }
    case Node(_, _, operands) => a, b, late, p := FindLooseIn(operands, still);
    case Logic(_, left, _) => a, b, late, p := FindLoose(left, still);
  }

  lemma {:induction false} FindLooseIn(es: seq<Expr>, still: set<int>) returns (a: int, b: int, late: bool, p: Pair)
    requires !FramedAll(es, still)
    ensures LooseAll(es, a, b, late, p) && (p.ReadAndCall? ==> a !in still)
    decreases es, 0
  {
    if !Framed(es[0], still) {
      a, b, late, p := FindLoose(es[0], still);
    } else {
      a, b, late, p := FindLooseIn(es[1..], still);
    }
  }

  lemma {:induction false} SkeletonNodes(e: Expr)
    ensures Moments(Skeleton(e)) <= Ids(e)
    decreases e, 1
  {
    match e
    case Node(_, _, operands) => SkeletonsNodes(operands);
    case Logic(_, left, right) => SkeletonNodes(left); SkeletonNodes(right);
    case _ =>
  }

  lemma {:induction false} SkeletonsNodes(es: seq<Expr>)
    ensures MomentsAll(Skeletons(es)) <= IdsAll(es)
    decreases es, 0
  {
    if es != [] {
      SkeletonNodes(es[0]);
      SkeletonsNodes(es[1..]);
      assert Skeletons(es)[1..] == Skeletons(es[1..]);
    }
  }

  lemma {:induction false} LooseNodes(e: Expr, a: int, b: int, late: bool, p: Pair)
    requires Loose(e, a, b, late, p)
    ensures a in InTries(e) && b in InTries(e)
    decreases e, 1
  {
    match e
    case Try(_, inner) =>
      Containment(inner);
      if Loose(inner, a, b, late, p) {
        LooseNodes(inner, a, b, late, p);
      } else {
        ClashNodes(Skeleton(inner), a, b, late, p);
        SkeletonNodes(inner);
      }
    case Node(_, _, operands) => LooseAllNodes(operands, a, b, late, p);
    case Logic(_, left, _) => LooseNodes(left, a, b, late, p);
  }

  lemma {:induction false} LooseAllNodes(es: seq<Expr>, a: int, b: int, late: bool, p: Pair)
    requires LooseAll(es, a, b, late, p)
    ensures a in InTriesAll(es) && b in InTriesAll(es)
    decreases es, 0
  {
    if Loose(es[0], a, b, late, p) { LooseNodes(es[0], a, b, late, p); } else { LooseAllNodes(es[1..], a, b, late, p); }
  }

  /** What is emitted has the pairs of its source. */
  lemma {:induction false} SameClashes(e: Expr, hoisted: map<int, int>, a: int, b: int, late: bool, p: Pair)
    requires Emit(e, hoisted).Some?
    ensures Clashes(Emit(e, hoisted).value, a, b, late, p) == Clashes(Skeleton(e), a, b, late, p)
    decreases e, 1
  {
    match e
    case Node(_, _, operands) => SameClashesAll(operands, hoisted, a, b, late, p);
    case Logic(_, left, right) =>
      SameClashes(left, hoisted, a, b, late, p);
      SameClashes(right, hoisted, a, b, late, p);
    case _ =>
  }

  lemma {:induction false} SameClashesAll(es: seq<Expr>, hoisted: map<int, int>, a: int, b: int, late: bool, p: Pair)
    requires EmitAll(es, hoisted).Some?
    ensures ClashesAll(EmitAll(es, hoisted).value, a, b, late, p) == ClashesAll(Skeletons(es), a, b, late, p)
    decreases es, 0
  {
    if es != [] {
      OpenedTail(es, hoisted);
      SameClashes(es[0], hoisted, a, b, late, p);
      SameClashesAll(es[1..], hoisted, a, b, late, p);
      SameShape(es[0], hoisted, {});
      SameShapes(es[1..], hoisted, {});
    }
  }

  // ---------------------------------------------------------------- in the frame of a `try`

  /** One plan and the lexical order of a preamble part. */
  ghost predicate FrameApart(o: Option<Out<Temps>>, inOrder: Out<Temps>, a: int, b: int, late: bool, p: Pair) {
    && o.Some?
    && if p.ReadAndCall? then o.value.Bail? && inOrder.Val? && AllGood(inOrder.x)
       else
         && o.value.Panic? && FellIn(!late, a, b, p, o.value.id, o.value.tr)
         && inOrder.Panic? && FellIn(late, a, b, p, inOrder.id, inOrder.tr)
  }

  lemma SnareAway(a: int, b: int, late: bool, p: Pair, odd: Value, ids: set<int>, tr: Trace)
    requires a !in ids && b !in ids
    ensures Away(Snare(a, b, late, p, odd), ids, tr)
  {
  }

  /** The code of one `try` under a schedule of its operand. */
  lemma BailCodeBy(tmp: int, e: GoExpr, f: Frame, s: seq<int>, w: World, temps: Temps, tr: Trace)
    requires BailForm(f).Some?
    ensures Fits([s], BailCode(tmp, e, f))
    ensures ExecBy(BailCode(tmp, e, f), [s], w, temps, tr) ==
            match Ends([e], s, Context(w, temps), tr)
            case Some(Val(vs, tr')) =>
              if |vs| != 1 then None
              else if TagOf(vs[0]) == BailTag(f) then Some(Bail(BailValue(f, vs[0]), tr'))
              else Some(Val(temps[tmp := vs[0]], tr'))
            case Some(stop) => Some(Stopped(stop))
            case None => None
  {
    var (tag, ret) := BailForm(f).value;
    var code := BailCode(tmp, e, f);
    assert code[1..] == [BailIf(tmp, tag, ret)] && code[1..][1..] == [] && [s][1..] == [];
    assert Fits([], code[1..]);
    var o := Ends([e], s, Context(w, temps), tr);
    if o.Some? && o.value.Val? && |o.value.x| == 1 {
      var temps' := temps[tmp := o.value.x[0]];
      assert ExecBy(code[1..], [], w, temps', o.value.tr) ==
             if TagOf(o.value.x[0]) == tag then Some(Bail(GoReturnValue(ret, o.value.x[0]), o.value.tr))
             else ExecBy(code[1..][1..], [], w, temps', o.value.tr);
    }
  }

  /** The operand of a `try` in its own frame. */
  lemma OperandApart(
    tmp: int, e: GoExpr, f: Frame, a: int, b: int, late: bool, p: Pair, temps: Temps, tr: Trace)
    returns (s: seq<int>)
    requires BailForm(f).Some? && Tree(e) && Clashes(e, a, b, late, p) && AllGood(temps) && !Seen(tr, b)
    ensures var w := Probe(Snare(a, b, late, p, BailMark(f)));
            && Fits([s], BailCode(tmp, e, f))
            && FrameApart(ExecBy(BailCode(tmp, e, f), [s], w, temps, tr), Exec(BailCode(tmp, e, f), w, temps, tr), a, b, late, p)
  {
    hide Probe, Clashes;
    var odd := BailMark(f);
    var w := Probe(Snare(a, b, late, p, odd));
    var c := Context(w, temps);
    FireOne(e, 0, true, c, map[], tr);
    ClashOne(e, a, b, late, p);
    ClashInOrder(e, a, b, late, p, odd, c, tr);
    s := SomeScheduleSwaps([e], a, b, late, p, odd, c, tr);
    BailCodeBy(tmp, e, f, s, w, temps, tr);
    BailCodeRuns(tmp, e, f, w, temps, tr);
  }

  lemma ClashOne(e: GoExpr, a: int, b: int, late: bool, p: Pair)
    requires Clashes(e, a, b, late, p)
    ensures ClashesAll([e], a, b, late, p)
  {
  }

  lemma {:induction false} LooseApart(
    e: Expr, f: Frame, g: Gen, hoisted: map<int, int>, a: int, b: int, late: bool, p: Pair, temps: Temps, tr: Trace)
    returns (plan: seq<seq<int>>)
    requires Lowered(e, f, g, hoisted) && Loose(e, a, b, late, p) && AllGood(temps) && !Seen(tr, b)
    ensures var w := Probe(Snare(a, b, late, p, BailMark(f)));
            var ss := Added(g, Hoist(e, f, g).value);
            Fits(plan, ss) && FrameApart(ExecBy(ss, plan, w, temps, tr), Exec(ss, w, temps, tr), a, b, late, p)
    decreases e, 1
  {
    hide Walk, Emit, Hoist, Distinct, Untouched, TryHoistingProofs.Agrees, TrySet, Probe, FrameApart, Exec, ExecBy;
    LoweredParts(e, f, g, hoisted);
    match e
    case Node(_, _, operands) => plan := LooseAllApart(operands, f, g, hoisted, a, b, late, p, temps, tr);
    case Logic(_, left, _) => plan := LooseApart(left, f, g, hoisted, a, b, late, p, temps, tr);
    case Try(id, inner) =>
      var gi := Hoist(inner, f, g).value;
      if Loose(inner, a, b, late, p) {
        plan := LooseApart(inner, f, g, gi.tryHoist, a, b, late, p, temps, tr);
        plan := LooseWithin(id, inner, f, g, hoisted, a, b, late, p, temps, tr, plan);
      } else {
        plan := LooseHere(id, inner, f, g, hoisted, a, b, late, p, temps, tr);
      }
  }

  /** The preambles of the operand come apart. */
  lemma LooseWithin(
    id: int, inner: Expr, f: Frame, g: Gen, hoisted: map<int, int>, a: int, b: int, late: bool, p: Pair, temps: Temps, tr: Trace,
    plan: seq<seq<int>>)
    returns (plan': seq<seq<int>>)
    requires Lowered(Try(id, inner), f, g, hoisted) && Loose(inner, a, b, late, p) && Hoist(inner, f, g).Some?
    requires g.out <= Hoist(inner, f, g).value.out
    requires var w := Probe(Snare(a, b, late, p, BailMark(f)));
             var ss := Added(g, Hoist(inner, f, g).value);
             Fits(plan, ss) && FrameApart(ExecBy(ss, plan, w, temps, tr), Exec(ss, w, temps, tr), a, b, late, p)
    ensures var w := Probe(Snare(a, b, late, p, BailMark(f)));
            var ss := Added(g, Hoist(Try(id, inner), f, g).value);
            Fits(plan', ss) && FrameApart(ExecBy(ss, plan', w, temps, tr), Exec(ss, w, temps, tr), a, b, late, p)
  {
    hide Walk, Emit, Hoist, Distinct, Untouched, TryHoistingProofs.Agrees, TrySet, Probe, Exec, ExecBy, Unique, Ids, InTries;
    var t := Snare(a, b, late, p, BailMark(f));
    var w := Probe(t);
    LoweredTry(id, inner, f, g, hoisted);
    TryExec(id, inner, f, g, hoisted, w, temps, tr);
    var gi := Hoist(inner, f, g).value;
    var ge := Emit(inner, gi.tryHoist).value;
    BailCodeBy(gi.counter + 1, ge, f, [], w, temps, tr);
    ExecByConcat(Added(g, gi), BailCode(gi.counter + 1, ge, f), plan, [[]], w, temps, tr);
    plan' := plan + [[]];
    var r := Exec(Added(g, gi), w, temps, tr);
    if r.Val? {
      LooseNodes(inner, a, b, late, p);
      EmitTree(inner, gi.tryHoist);
      assert Unique(inner) by { UniqueInner(id, inner, f, g, gi.tryHoist); }
      SnareAway(a, b, late, p, BailMark(f), Moments(ge), r.tr);
      GoClean(ge, t, Context(w, r.x), r.tr);
    }
  }

  /** The operand itself does. */
  lemma LooseHere(
    id: int, inner: Expr, f: Frame, g: Gen, hoisted: map<int, int>, a: int, b: int, late: bool, p: Pair, temps: Temps, tr: Trace)
    returns (plan: seq<seq<int>>)
    requires Lowered(Try(id, inner), f, g, hoisted) && Clashes(Skeleton(inner), a, b, late, p) && AllGood(temps) && !Seen(tr, b)
    ensures var w := Probe(Snare(a, b, late, p, BailMark(f)));
            var ss := Added(g, Hoist(Try(id, inner), f, g).value);
            Fits(plan, ss) && FrameApart(ExecBy(ss, plan, w, temps, tr), Exec(ss, w, temps, tr), a, b, late, p)
  {
    hide Walk, Emit, Hoist, Distinct, Untouched, TryHoistingProofs.Agrees, TrySet, Probe, FrameApart, Exec, ExecBy, Unique, Ids, InTries;
    var t := Snare(a, b, late, p, BailMark(f));
    var w := Probe(t);
    LoweredTry(id, inner, f, g, hoisted);
    TryExec(id, inner, f, g, hoisted, w, temps, tr);
    var gi := Hoist(inner, f, g).value;
    var ge := Emit(inner, gi.tryHoist).value;
    SameClashes(inner, gi.tryHoist, a, b, late, p);
    ClashNodes(ge, a, b, late, p);
    EmitTree(inner, gi.tryHoist);
    assert Unique(inner) by { UniqueInner(id, inner, f, g, gi.tryHoist); }
    SnareAway(a, b, late, p, BailMark(f), InTries(inner), tr);
    ExecCalm(inner, f, g, gi.tryHoist, t, temps, tr);
    ExecBetween(inner, f, g, gi.tryHoist, w, temps, tr);
    PreambleFrames(inner, f, g, gi.tryHoist, {});
    plan := LexicalPlan(Added(g, gi), w, temps, tr);
    var r := Exec(Added(g, gi), w, temps, tr);
    var s := OperandApart(gi.counter + 1, ge, f, a, b, late, p, r.x, r.tr);
    ExecByConcat(Added(g, gi), BailCode(gi.counter + 1, ge, f), plan, [s], w, temps, tr);
    ExecConcat(Added(g, gi), BailCode(gi.counter + 1, ge, f), w, temps, tr);
    plan := plan + [s];
  }

  lemma {:induction false} LooseAllApart(
    es: seq<Expr>, f: Frame, g: Gen, hoisted: map<int, int>, a: int, b: int, late: bool, p: Pair, temps: Temps, tr: Trace)
    returns (plan: seq<seq<int>>)
    requires LoweredAll(es, f, g, hoisted) && LooseAll(es, a, b, late, p) && AllGood(temps) && !Seen(tr, b)
    ensures var w := Probe(Snare(a, b, late, p, BailMark(f)));
            var ss := Added(g, HoistAll(es, f, g).value);
            Fits(plan, ss) && FrameApart(ExecBy(ss, plan, w, temps, tr), Exec(ss, w, temps, tr), a, b, late, p)
    decreases es, 0
  {
    hide Walk, Emit, Probe, FrameApart, Exec, ExecBy;
    LoweredCons(es, f, g, hoisted);
    Containment(es[0]);
    ContainmentAll(es[1..]);
    var t := Snare(a, b, late, p, BailMark(f));
    var w := Probe(t);
    var g1 := Hoist(es[0], f, g).value;
    var code, rest := Added(g, g1), Added(g1, HoistAll(es, f, g).value);
    ExecConcat(code, rest, w, temps, tr);
    PreambleFrames(es[0], f, g, hoisted, {});
    PreamblesFrames(es[1..], f, g1, hoisted, {});
    var r := Exec(code, w, temps, tr);
    var q;
    if Loose(es[0], a, b, late, p) {
      LooseNodes(es[0], a, b, late, p);
      plan := LooseApart(es[0], f, g, hoisted, a, b, late, p, temps, tr);
      q := LexicalPlan(rest, w, temps, tr);
      ExecByConcat(code, rest, plan, q, w, temps, tr);
      SnareAway(a, b, late, p, BailMark(f), InTriesAll(es[1..]), r.tr);
      ApartStays(es[1..], f, g1, hoisted, t, ExecBy(code, plan, w, temps, tr), r, a, b, late, p);
    } else {
      LooseAllNodes(es[1..], a, b, late, p);
      SnareAway(a, b, late, p, BailMark(f), InTries(es[0]), tr);
      ExecCalm(es[0], f, g, hoisted, t, temps, tr);
      ExecBetween(es[0], f, g, hoisted, w, temps, tr);
      plan := LexicalPlan(code, w, temps, tr);
      q := LooseAllApart(es[1..], f, g1, hoisted, a, b, late, p, r.x, r.tr);
      ExecByConcat(code, rest, plan, q, w, temps, tr);
    }
    plan := plan + q;
  }

  /** What follows does not bring the two together again. */
  lemma ApartStays(
    es: seq<Expr>, f: Frame, g: Gen, hoisted: map<int, int>, t: Trap, o: Option<Out<Temps>>, r: Out<Temps>,
    a: int, b: int, late: bool, p: Pair)
    requires LoweredAll(es, f, g, hoisted) && Away(t, InTriesAll(es), r.tr) && FrameApart(o, r, a, b, late, p)
    ensures !o.value.Val?
    ensures var r' := match r
                      case Val(temps', tr') => Exec(Added(g, HoistAll(es, f, g).value), Probe(t), temps', tr')
                      case stop => stop;
            FrameApart(o, r', a, b, late, p)
  {
    hide Probe, Exec;
    if r.Val? { ExecAllCalm(es, f, g, hoisted, t, r.x, r.tr); }
  }

  // ---------------------------------------------------------------- in the frame of the statement

  lemma {:induction false} ValuesLength(es: seq<GoExpr>, c: Context, m: Done)
    ensures |ValuesOf(es, c, m)| == |es|
  {
    if es != [] { ValuesLength(es[1..], c, m); }
  }

  /** The store finds its element, and passes on what is odd. */
  lemma StorePasses(gs: seq<GoExpr>, t: Trap, c: Context, o: Out<seq<Value>>)
    requires Trapped(c, t) && t.falls == {} && t.odd != Atom(0) && o.Val? && |o.x| == |PhaseOne(gs)|
    requires IsStore(gs) ==> gs[0].id != t.x
    ensures var r := PhaseTwo(gs, o, c.w); r.Val? && (Clean(r.x) <==> Clean(o.x))
  {
    if IsStore(gs) {
      var n := |gs[0].operands|;
      var v := Blend(o.x[..n], t.odd);
      assert PhaseTwo(gs, o, c.w).x == [v] + o.x[n..];
      assert o.x == o.x[..n] + o.x[n..];
      CleanBoth(o.x[..n], o.x[n..]);
      CleanBoth([v], o.x[n..]);
      assert Clean([v]) <==> [v][0] == Atom(0);
    }
  }

  lemma CleanBoth(vs: seq<Value>, us: seq<Value>)
    ensures Clean(vs + us) <==> Clean(vs) && Clean(us)
  {
    if Clean(vs + us) {
      forall i | 0 <= i < |vs| ensures vs[i] == Atom(0) { assert (vs + us)[i] == vs[i]; }
      forall i | 0 <= i < |us| ensures us[i] == Atom(0) { assert (vs + us)[|vs| + i] == us[i]; }
    }
  }

  lemma EndsLength(es: seq<GoExpr>, s: seq<int>, c: Context, tr: Trace)
    requires var o := Ends(es, s, c, tr); o.Some? && o.value.Val?
    ensures |Ends(es, s, c, tr).value.x| == |es|
  {
    ValuesLength(es, c, RunAll(es, s, true, c, map[], tr).value.m);
  }

  /** Two schedules of a statement in which a pair can change places. */
  lemma StatementApart(gs: seq<GoExpr>, a: int, b: int, late: bool, p: Pair, c: Context, tr: Trace)
    returns (s1: seq<int>, s2: seq<int>)
    requires ClashesAll(PhaseOne(gs), a, b, late, p) && TreeAll(PhaseOne(gs)) && !Seen(tr, b)
    requires Trapped(c, Snare(a, b, late, p, Atom(1))) && (IsStore(gs) ==> gs[0].id != a)
    ensures StmtEnds(gs, s1, c, tr).Some? && StmtEnds(gs, s2, c, tr).Some?
    ensures StmtEnds(gs, s1, c, tr) != StmtEnds(gs, s2, c, tr)
  {
    hide Probe;
    var es, t := PhaseOne(gs), Snare(a, b, late, p, Atom(1));
    s1 := LexicalEnds(es, c, tr);
    ClashAllInOrder(es, a, b, late, p, Atom(1), c, tr);
    s2 := SomeScheduleSwaps(es, a, b, late, p, Atom(1), c, tr);
    if p.ReadAndCall? {
      EndsLength(es, s1, c, tr);
      EndsLength(es, s2, c, tr);
      StorePasses(gs, t, c, Ends(es, s1, c, tr).value);
      StorePasses(gs, t, c, Ends(es, s2, c, tr).value);
    }
  }

  /** The value of a store has a call or may panic: Go gets there before the element is found. */
  lemma StoreApart(gs: seq<GoExpr>, b: int, p: Pair, c: Context, tr: Trace) returns (s: seq<int>)
    requires IsStore(gs) && !p.ReadAndCall? && b in OthersIn(gs[1..], p) && TreeAll(gs) && TreeAll(PhaseOne(gs))
    requires Trapped(c, Snare(gs[0].id, b, true, p, Atom(1))) && !Seen(tr, b)
    ensures InOrderAll(gs, c, tr).Panic? && StmtEnds(gs, s, c, tr).Some? && StmtEnds(gs, s, c, tr).value != InOrderAll(gs, c, tr)
  {
    hide Probe;
    var a, ops, rest := gs[0].id, gs[0].operands, gs[1..];
    var t := Snare(a, b, true, p, Atom(1));
    AllOrdersAreMoments(rest);
    SnareAway(a, b, true, p, Atom(1), MomentsAll(ops), tr);
    GoAllClean(ops, t, c, tr);
    var o := InOrderAll(ops, c, tr);
    PlaceFalls(gs[0], t, c, o);
    assert InOrder(gs[0], c, tr) == Panic(a, o.tr);
    StorePhases(gs, c, tr);
    s := LexicalEnds(PhaseOne(gs), c, tr);
    if p.TwoPanics? {
      FallsAtIn(rest, b, t, c, o.tr);
    } else {
      GoAllClean(rest, t, c, o.tr);
      CallHappensIn(rest, b, t, c, o.tr);
      PlaceFalls(gs[0], t, c, Val(o.x, InOrderAll(rest, c, o.tr).tr));
    }
  }

  lemma PlaceFalls(e: GoExpr, t: Trap, c: Context, o: Out<seq<Value>>)
    requires e.GoNode? && e.kind.ElementPlace? && Trapped(c, t) && e.id in t.falls && o.Val?
    ensures Check(e.id, e.kind, o.x, c.w, o.tr) == Panic(e.id, o.tr)
    ensures Finish(e.id, e.kind, o.x, c.w, o.tr) == Panic(e.id, o.tr)
  {
  }
}
