/**
 The second way hoisting goes wrong. What is left of a statement runs behind the
 preambles of its `try`s, so a name or field read before a `try` is read after the
 effects of its operand. For every statement with such a read that lowers, there is a
 world in which both programs run through, but only the Go program sees the effect.
 */
module MovedReads {
  import opened Wrappers
  import opened TryHoisting
  import opened TryHoistingProofs
  import opened MovedEffects

  // ---------------------------------------------------------------- the read that is moved

  /** The read x precedes, in its frame, a `try` whose operand has the effect ev. */
  predicate Overtaken(e: Expr, x: int, ev: int)
    decreases e, 1
  {
    match e
    case Try(_, inner) => Overtaken(inner, x, ev)
    case Node(_, _, operands) => OvertakenAll(operands, x, ev)
    case Logic(_, left, _) => Overtaken(left, x, ev)
    case _ => false
  }

  predicate OvertakenAll(es: seq<Expr>, x: int, ev: int)
    decreases es, 0
  {
    && es != []
    && (|| Overtaken(es[0], x, ev)
        || OvertakenAll(es[1..], x, ev)
        || (x in Reads(es[0]) && ev in TryActsAll(es[1..])))
  }

  lemma {:induction false} FindOvertaken(e: Expr, still: set<int>) returns (x: int, ev: int)
    requires !InPlace(e, still)
    ensures Overtaken(e, x, ev) && x !in still
    decreases e, 1
  {
    match e
    case Try(_, inner) => x, ev := FindOvertaken(inner, still);
    case Node(_, _, operands) => x, ev := FindOvertakenIn(operands, still);
    case Logic(_, left, _) => x, ev := FindOvertaken(left, still);
  }

  lemma {:induction false} FindOvertakenIn(es: seq<Expr>, still: set<int>) returns (x: int, ev: int)
    requires !InPlaceAll(es, still)
    ensures OvertakenAll(es, x, ev) && x !in still
    decreases es, 0
  {
    if !InPlace(es[0], still) {
      x, ev := FindOvertaken(es[0], still);
    } else if !InPlaceAll(es[1..], still) {
      x, ev := FindOvertakenIn(es[1..], still);
    } else {
      x := PickOutside(Reads(es[0]), still);
      ev := Pick(TryActsAll(es[1..]));
    }
  }

  lemma {:induction false} OvertakenNodes(e: Expr, x: int, ev: int)
    requires Overtaken(e, x, ev)
    ensures x in Ids(e) && ev in Ids(e)
    decreases e, 1
  {
    match e
    case Try(_, inner) => OvertakenNodes(inner, x, ev);
    case Node(_, _, operands) => OvertakenAllNodes(operands, x, ev);
    case Logic(_, left, _) => OvertakenNodes(left, x, ev);
  }

  lemma {:induction false} OvertakenAllNodes(es: seq<Expr>, x: int, ev: int)
    requires OvertakenAll(es, x, ev)
    ensures x in IdsAll(es) && ev in IdsAll(es)
    decreases es, 0
  {
    if Overtaken(es[0], x, ev) {
      OvertakenNodes(es[0], x, ev);
    } else if OvertakenAll(es[1..], x, ev) {
      OvertakenAllNodes(es[1..], x, ev);
    } else {
      ActsIn(es[0]);
      ActsAllIn(es[1..]);
    }
  }

  // ---------------------------------------------------------------- the source

  /** The read x tells whether ev has acted. */
  function Stale(x: int, ev: int): Trap { Trap(x, Behind(ev), Atom(1), {}) }

  /** In the source the read comes first, so everything stays clean. */
  lemma {:induction false} SourceClean(e: Expr, x: int, ev: int, f: Frame, tr: Trace)
    requires Unique(e) && Overtaken(e, x, ev) && !Seen(tr, ev)
    ensures var o := Eval(e, f, Probe(Stale(x, ev)), tr); o.Val? && o.x == Atom(0)
    decreases e, 1
  {
    match e
    case Try(_, inner) => SourceClean(inner, x, ev, f, tr);
    case Node(id, _, operands) =>
      OvertakenAllNodes(operands, x, ev);
      SourceAllClean(operands, x, ev, f, tr);
    case Logic(_, left, right) =>
      OvertakenNodes(left, x, ev);
      SourceClean(left, x, ev, f, tr);
      Calm(right, Stale(x, ev), f, Eval(left, f, Probe(Stale(x, ev)), tr).tr);
  }

  lemma {:induction false} SourceAllClean(es: seq<Expr>, x: int, ev: int, f: Frame, tr: Trace)
    requires UniqueAll(es) && OvertakenAll(es, x, ev) && !Seen(tr, ev)
    ensures var o := EvalAll(es, f, Probe(Stale(x, ev)), tr); o.Val? && Clean(o.x)
    decreases es, 0
  {
    hide Probe, Eval;
    var w := Probe(Stale(x, ev));
    var s := Eval(es[0], f, w, tr);
    EvalBetween(es[0], f, w, tr);
    if Overtaken(es[0], x, ev) {
      OvertakenNodes(es[0], x, ev);
      SourceClean(es[0], x, ev, f, tr);
      CalmAll(es[1..], Stale(x, ev), f, s.tr);
    } else if OvertakenAll(es[1..], x, ev) {
      OvertakenAllNodes(es[1..], x, ev);
      Calm(es[0], Stale(x, ev), f, tr);
      SourceAllClean(es[1..], x, ev, f, s.tr);
    } else {
      ActsIn(es[0]);
      ActsAllIn(es[1..]);
      Calm(es[0], Stale(x, ev), f, tr);
      CalmAll(es[1..], Stale(x, ev), f, s.tr);
    }
  }

  // ---------------------------------------------------------------- the Go program runs through

  ghost predicate AllAtoms(temps: Temps) { forall k :: k in temps ==> temps[k].Atom? }

  /** Nothing bails, and nothing panics. */
  predicate Mild(t: Trap) { t.odd.Atom? && t.falls == {} }

  lemma {:induction false} GoAtom(e: GoExpr, t: Trap, temps: Temps, tr: Trace)
    requires Mild(t) && AllAtoms(temps)
    ensures var o := GoEval(e, Probe(t), temps, tr); o.Val? && o.x.Atom?
    decreases e, 1
  {
    match e
    case GoNode(_, _, operands) => GoAllAtoms(operands, t, temps, tr);
    case GoLogic(_, left, right) =>
      GoAtom(left, t, temps, tr);
      GoAtom(right, t, temps, GoEval(left, Probe(t), temps, tr).tr);
    case _ =>
  }

  lemma {:induction false} GoAllAtoms(es: seq<GoExpr>, t: Trap, temps: Temps, tr: Trace)
    requires Mild(t) && AllAtoms(temps)
    ensures GoEvalAll(es, Probe(t), temps, tr).Val?
    decreases es, 0
  {
    if es != [] {
      GoAtom(es[0], t, temps, tr);
      GoAllAtoms(es[1..], t, temps, GoEval(es[0], Probe(t), temps, tr).tr);
    }
  }

  /** The preamble runs through and only adds temps, none of which bails. */
  ghost predicate RunsThrough(temps: Temps, r: Out<Temps>, n: int) {
    r.Val? && AllAtoms(r.x) && Extends(temps, r.x) && Fresh(r.x, n)
  }

  lemma {:induction false} ExecAtoms(e: Expr, f: Frame, g: Gen, hoisted: map<int, int>, t: Trap, temps: Temps, tr: Trace)
    requires Lowered(e, f, g, hoisted) && Mild(t) && AllAtoms(temps) && Fresh(temps, g.counter)
    ensures RunsThrough(temps, Exec(Added(g, Hoist(e, f, g).value), Probe(t), temps, tr), Hoist(e, f, g).value.counter)
    decreases e, 1
  {
    hide Walk, Emit, Probe, Distinct, Untouched, Agrees, Unique, TrySet;
    LoweredParts(e, f, g, hoisted);
    match e
    case Literal(_) => assert Added(g, g) == [];
    case Read(_) => assert Added(g, g) == [];
    case Opaque(_) => assert Added(g, g) == [];
    case Node(_, _, operands) => ExecAllAtoms(operands, f, g, hoisted, t, temps, tr);
    case Logic(_, left, _) => ExecAtoms(left, f, g, hoisted, t, temps, tr);
    case Try(id, inner) =>
      TryExec(id, inner, f, g, hoisted, Probe(t), temps, tr);
      var gi := Hoist(inner, f, g).value;
      ExecAtoms(inner, f, g, gi.tryHoist, t, temps, tr);
      var r := Exec(Added(g, gi), Probe(t), temps, tr);
      GoAtom(Emit(inner, gi.tryHoist).value, t, r.x, r.tr);
  }

  lemma {:induction false} ExecAllAtoms(es: seq<Expr>, f: Frame, g: Gen, hoisted: map<int, int>, t: Trap, temps: Temps, tr: Trace)
    requires LoweredAll(es, f, g, hoisted) && Mild(t) && AllAtoms(temps) && Fresh(temps, g.counter)
    ensures RunsThrough(temps, Exec(Added(g, HoistAll(es, f, g).value), Probe(t), temps, tr), HoistAll(es, f, g).value.counter)
    decreases es, 0
  {
    hide Walk, Emit, Probe;
    if es == [] {
      assert Added(g, g) == [];
    } else {
      LoweredCons(es, f, g, hoisted);
      var g1 := Hoist(es[0], f, g).value;
      var gn := HoistAll(es, f, g).value;
      ExecAtoms(es[0], f, g, hoisted, t, temps, tr);
      ExecConcat(Added(g, g1), Added(g1, gn), Probe(t), temps, tr);
      var r := Exec(Added(g, g1), Probe(t), temps, tr);
      ExecAllAtoms(es[1..], f, g1, hoisted, t, r.x, r.tr);
      ExtendsThen(temps, r.x, Exec(Added(g1, gn), Probe(t), r.x, r.tr).x);
    }
  }

  // ---------------------------------------------------------------- the effect comes first

  /** An effect of e outside its `try`s happens in what is left of e. */
  lemma {:induction false} GoActs(
    e: Expr, n: int, t: Trap, f: Frame, g: Gen, hoisted: map<int, int>, temps: Temps, tr: Trace)
    requires Lowered(e, f, g, hoisted) && n in Acts(e) && n !in TryActs(e) && Off(t, Ids(e)) && AllGood(temps)
    ensures Seen(GoEval(Emit(e, hoisted).value, Probe(t), temps, tr).tr, n)
    decreases e, 1
  {
    LoweredParts(e, f, g, hoisted);
    var w := Probe(t);
    match e
    case Node(id, k, operands) =>
      GoAllCalm(operands, hoisted, t, temps, tr);
      var o := GoEvalAll(EmitAll(operands, hoisted).value, w, temps, tr);
      if n in ActsAll(operands) { GoAllActs(operands, n, t, f, g, hoisted, temps, tr); }
      SeenSnoc(o.tr, id, o.x);
    case Logic(_, left, right) =>
      GoCalm(left, hoisted, t, temps, tr);
      var o := GoEval(Emit(left, hoisted).value, w, temps, tr);
      GoBetween(right, hoisted, w, temps, o.tr);
      if n in Acts(left) {
        GoActs(left, n, t, f, g, hoisted, temps, tr);
      } else {
        TryFreeEmit(right, f, hoisted, w, temps, o.tr);
        ActHappens(right, n, t, f, o.tr);
      }
    case Opaque(id) => SeenSnoc(tr, id, []);
    case _ =>
  }

  lemma {:induction false} GoAllActs(
    es: seq<Expr>, n: int, t: Trap, f: Frame, g: Gen, hoisted: map<int, int>, temps: Temps, tr: Trace)
    requires LoweredAll(es, f, g, hoisted) && n in ActsAll(es) && n !in TryActsAll(es) && Off(t, IdsAll(es)) && AllGood(temps)
    ensures Seen(GoEvalAll(EmitAll(es, hoisted).value, Probe(t), temps, tr).tr, n)
    decreases es, 0
  {
    hide Probe, Walk;
    LoweredCons(es, f, g, hoisted);
    var gs := EmitAll(es, hoisted).value;
    assert gs[1..] == EmitAll(es[1..], hoisted).value;
    GoCalm(es[0], hoisted, t, temps, tr);
    var o := GoEval(gs[0], Probe(t), temps, tr);
    GoAllCalm(es[1..], hoisted, t, temps, o.tr);
    GoAllBetween(es[1..], hoisted, Probe(t), temps, o.tr);
    if n in Acts(es[0]) {
      GoActs(es[0], n, t, f, g, hoisted, temps, tr);
    } else {
      GoAllActs(es[1..], n, t, f, Hoist(es[0], f, g).value, hoisted, temps, o.tr);
    }
  }

  /** An effect inside the `try`s happens in the preambles. */
  lemma {:induction false} ExecActs(
    e: Expr, n: int, t: Trap, f: Frame, g: Gen, hoisted: map<int, int>, temps: Temps, tr: Trace)
    requires Lowered(e, f, g, hoisted) && n in TryActs(e) && Off(t, Ids(e)) && AllGood(temps)
    ensures Seen(Exec(Added(g, Hoist(e, f, g).value), Probe(t), temps, tr).tr, n)
    decreases e, 1
  {
    hide Walk, Probe, Distinct, Untouched, Agrees, Unique, TrySet;
    LoweredParts(e, f, g, hoisted);
    match e
    case Node(_, _, operands) => ExecAllActs(operands, n, t, f, g, hoisted, temps, tr);
    case Logic(_, left, _) => ExecActs(left, n, t, f, g, hoisted, temps, tr);
    case Try(id, inner) =>
      var w := Probe(t);
      TryExec(id, inner, f, g, hoisted, w, temps, tr);
      var gi := Hoist(inner, f, g).value;
      var r := Exec(Added(g, gi), w, temps, tr);
      Containment(inner);
      ExecCalm(inner, f, g, gi.tryHoist, t, temps, tr);
      GoCalm(inner, gi.tryHoist, t, r.x, r.tr);
      GoBetween(inner, gi.tryHoist, w, r.x, r.tr);
      if n in TryActs(inner) {
        ExecActs(inner, n, t, f, g, gi.tryHoist, temps, tr);
      } else {
        GoActs(inner, n, t, f, g, gi.tryHoist, r.x, r.tr);
      }
  }

  lemma {:induction false} ExecAllActs(
    es: seq<Expr>, n: int, t: Trap, f: Frame, g: Gen, hoisted: map<int, int>, temps: Temps, tr: Trace)
    requires LoweredAll(es, f, g, hoisted) && n in TryActsAll(es) && Off(t, IdsAll(es)) && AllGood(temps)
    ensures Seen(Exec(Added(g, HoistAll(es, f, g).value), Probe(t), temps, tr).tr, n)
    decreases es, 0
  {
    hide Walk, Emit, Probe;
    LoweredCons(es, f, g, hoisted);
    var w := Probe(t);
    var g1 := Hoist(es[0], f, g).value;
    var gn := HoistAll(es, f, g).value;
    ExecConcat(Added(g, g1), Added(g1, gn), w, temps, tr);
    Containment(es[0]);
    ExecCalm(es[0], f, g, hoisted, t, temps, tr);
    var r := Exec(Added(g, g1), w, temps, tr);
    if n in TryActs(es[0]) {
      ExecActs(es[0], n, t, f, g, hoisted, temps, tr);
      ExecAllBetween(es[1..], f, g1, hoisted, w, r.x, r.tr);
    } else {
      ExecAllActs(es[1..], n, t, f, g1, hoisted, r.x, r.tr);
    }
  }

  // ---------------------------------------------------------------- the read sees it

  /** Behind the effect, every value that depends on the read is odd. */
  lemma {:induction false} GoSees(e: Expr, x: int, ev: int, hoisted: map<int, int>, temps: Temps, tr: Trace)
    requires Emit(e, hoisted).Some? && x in Reads(e) && Seen(tr, ev) && AllAtoms(temps)
    ensures GoEval(Emit(e, hoisted).value, Probe(Stale(x, ev)), temps, tr).Val?
    ensures GoEval(Emit(e, hoisted).value, Probe(Stale(x, ev)), temps, tr).x != Atom(0)
    decreases e, 1
  {
    var t := Stale(x, ev);
    GoAtom(Emit(e, hoisted).value, t, temps, tr);
    match e
    case Node(id, k, operands) =>
      var gs := EmitAll(operands, hoisted).value;
      GoAllAtoms(gs, t, temps, tr);
      GoAllBetween(operands, hoisted, Probe(t), temps, tr);
      if x in ReadsAll(operands) { GoAllSee(operands, x, ev, hoisted, temps, tr); }
    case Logic(_, left, right) =>
      var gl := Emit(left, hoisted).value;
      GoAtom(gl, t, temps, tr);
      GoBetween(left, hoisted, Probe(t), temps, tr);
      if x in Reads(left) {
        GoSees(left, x, ev, hoisted, temps, tr);
      } else {
        GoSees(right, x, ev, hoisted, temps, GoEval(gl, Probe(t), temps, tr).tr);
      }
    case _ =>
  }

  lemma {:induction false} GoAllSee(es: seq<Expr>, x: int, ev: int, hoisted: map<int, int>, temps: Temps, tr: Trace)
    requires EmitAll(es, hoisted).Some? && x in ReadsAll(es) && Seen(tr, ev) && AllAtoms(temps)
    ensures var o := GoEvalAll(EmitAll(es, hoisted).value, Probe(Stale(x, ev)), temps, tr); o.Val? && !Clean(o.x)
    decreases es, 0
  {
    hide Probe;
    var t := Stale(x, ev);
    var gs := EmitAll(es, hoisted).value;
    assert gs[1..] == EmitAll(es[1..], hoisted).value;
    GoAtom(gs[0], t, temps, tr);
    GoBetween(es[0], hoisted, Probe(t), temps, tr);
    var o := GoEval(gs[0], Probe(t), temps, tr);
    GoAllAtoms(gs[1..], t, temps, o.tr);
    if x in Reads(es[0]) {
      GoSees(es[0], x, ev, hoisted, temps, tr);
      FirstOdd(o.x, GoEvalAll(gs[1..], Probe(t), temps, o.tr).x);
    } else {
      GoAllSee(es[1..], x, ev, hoisted, temps, o.tr);
      RestOdd(o.x, GoEvalAll(gs[1..], Probe(t), temps, o.tr).x);
    }
  }

  lemma FirstOdd(v: Value, vs: seq<Value>)
    requires v != Atom(0)
    ensures !Clean([v] + vs)
  {
    assert ([v] + vs)[0] == v;
  }

  lemma RestOdd(v: Value, vs: seq<Value>)
    requires !Clean(vs)
    ensures !Clean([v] + vs)
  {
    var i :| 0 <= i < |vs| && vs[i] != Atom(0);
    assert ([v] + vs)[i + 1] == vs[i];
  }

  // ---------------------------------------------------------------- the value differs

  /** Behind the preamble of e, in any state that keeps its temps and its history. */
  ghost predicate Beyond(r: Out<Temps>, ev: int, final: Temps, tr: Trace) {
    r.Val? && Extends(r.x, final) && AllAtoms(final) && (Seen(r.tr, ev) ==> Seen(tr, ev))
  }

  lemma {:induction false} GoSpoilt(
    e: Expr, x: int, ev: int, f: Frame, g: Gen, hoisted: map<int, int>, temps: Temps, tr: Trace, final: Temps, tr2: Trace)
    requires Lowered(e, f, g, hoisted) && Overtaken(e, x, ev)
    requires AllGood(temps) && Fresh(temps, g.counter) && !Seen(tr, ev)
    requires Beyond(Exec(Added(g, Hoist(e, f, g).value), Probe(Stale(x, ev)), temps, tr), ev, final, tr2)
    ensures var o := GoEval(Emit(e, hoisted).value, Probe(Stale(x, ev)), final, tr2); o.Val? && o.x != Atom(0)
    decreases e, 1
  {
    hide Walk, Untouched, Distinct, Unique, TrySet;
    var t := Stale(x, ev);
    LoweredParts(e, f, g, hoisted);
    GoAtom(Emit(e, hoisted).value, t, final, tr2);
    match e
    case Node(id, k, operands) =>
      GoAllSpoilt(operands, x, ev, f, g, hoisted, temps, tr, final, tr2);
    case Logic(_, left, right) =>
      GoSpoilt(left, x, ev, f, g, hoisted, temps, tr, final, tr2);
    case Try(id, inner) =>
      TryExec(id, inner, f, g, hoisted, Probe(t), temps, tr);
      var gi := Hoist(inner, f, g).value;
      var r := Exec(Added(g, gi), Probe(t), temps, tr);
      ExecAtoms(inner, f, g, gi.tryHoist, t, temps, tr);
      GoSpoilt(inner, x, ev, f, g, gi.tryHoist, temps, tr, r.x, r.tr);
      PayloadSpoilt(id, inner, x, ev, f, g, hoisted, temps, tr, final, tr2);
  }

  /** The temp of a `try` passes on what its operand yields. */
  lemma PayloadSpoilt(
    id: int, inner: Expr, x: int, ev: int, f: Frame, g: Gen, hoisted: map<int, int>, temps: Temps, tr: Trace,
    final: Temps, tr2: Trace)
    requires Lowered(Try(id, inner), f, g, hoisted) && Hoist(inner, f, g).Some? && g.out <= Hoist(inner, f, g).value.out
    requires Emit(inner, Hoist(inner, f, g).value.tryHoist).Some?
    requires Beyond(Exec(Added(g, Hoist(Try(id, inner), f, g).value), Probe(Stale(x, ev)), temps, tr), ev, final, tr2)
    requires var gi := Hoist(inner, f, g).value;
             var r := Exec(Added(g, gi), Probe(Stale(x, ev)), temps, tr);
             && r.Val? && AllAtoms(r.x)
             && var o := GoEval(Emit(inner, gi.tryHoist).value, Probe(Stale(x, ev)), r.x, r.tr);
                o.Val? && o.x != Atom(0)
    ensures GoEval(Emit(Try(id, inner), hoisted).value, Probe(Stale(x, ev)), final, tr2).x != Atom(0)
  {
    hide Probe, Walk, Distinct, Untouched, Unique;
    LoweredParts(Try(id, inner), f, g, hoisted);
    TryExec(id, inner, f, g, hoisted, Probe(Stale(x, ev)), temps, tr);
    var gi := Hoist(inner, f, g).value;
    var r := Exec(Added(g, gi), Probe(Stale(x, ev)), temps, tr);
    GoAtom(Emit(inner, gi.tryHoist).value, Stale(x, ev), r.x, r.tr);
  }

  lemma {:induction false} GoAllSpoilt(
    es: seq<Expr>, x: int, ev: int, f: Frame, g: Gen, hoisted: map<int, int>, temps: Temps, tr: Trace, final: Temps, tr2: Trace)
    requires LoweredAll(es, f, g, hoisted) && OvertakenAll(es, x, ev)
    requires AllGood(temps) && Fresh(temps, g.counter) && !Seen(tr, ev)
    requires Beyond(Exec(Added(g, HoistAll(es, f, g).value), Probe(Stale(x, ev)), temps, tr), ev, final, tr2)
    ensures var o := GoEvalAll(EmitAll(es, hoisted).value, Probe(Stale(x, ev)), final, tr2); o.Val? && !Clean(o.x)
    decreases es, 0
  {
    hide Walk, Probe;
    LoweredCons(es, f, g, hoisted);
    var t := Stale(x, ev);
    var w := Probe(t);
    var g1 := Hoist(es[0], f, g).value;
    var gn := HoistAll(es, f, g).value;
    var r1 := Exec(Added(g, g1), w, temps, tr);
    ExecConcat(Added(g, g1), Added(g1, gn), w, temps, tr);
    ExecAtoms(es[0], f, g, hoisted, t, temps, tr);
    ExecAllAtoms(es[1..], f, g1, hoisted, t, r1.x, r1.tr);
    var rn := Exec(Added(g1, gn), w, r1.x, r1.tr);
    var gs := EmitAll(es, hoisted).value;
    assert gs[1..] == EmitAll(es[1..], hoisted).value;
    GoAtom(gs[0], t, final, tr2);
    var o := GoEval(gs[0], w, final, tr2);
    GoAllAtoms(gs[1..], t, final, o.tr);
    var rest := GoEvalAll(gs[1..], w, final, o.tr);
    if Overtaken(es[0], x, ev) {
      ExtendsThen(r1.x, rn.x, final);
      ExecAllBetween(es[1..], f, g1, hoisted, w, r1.x, r1.tr);
      GoSpoilt(es[0], x, ev, f, g, hoisted, temps, tr, final, tr2);
      FirstOdd(o.x, rest.x);
    } else if OvertakenAll(es[1..], x, ev) {
      OvertakenAllNodes(es[1..], x, ev);
      Containment(es[0]);
      ExecCalm(es[0], f, g, hoisted, t, temps, tr);
      ExecBetween(es[0], f, g, hoisted, w, temps, tr);
      GoBetween(es[0], hoisted, w, final, tr2);
      GoAllSpoilt(es[1..], x, ev, f, g1, hoisted, r1.x, r1.tr, final, o.tr);
      RestOdd(o.x, rest.x);
    } else {
      ActsIn(es[0]);
      ActsAllIn(es[1..]);
      Containment(es[0]);
      ExecCalm(es[0], f, g, hoisted, t, temps, tr);
      ExecAllActs(es[1..], ev, t, f, g1, hoisted, r1.x, r1.tr);
      GoSees(es[0], x, ev, hoisted, final, tr2);
      FirstOdd(o.x, rest.x);
    }
  }
}
