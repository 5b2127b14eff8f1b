/**
 The first way hoisting goes wrong. The safety walk of try.go neither enters nor marks
 the right operand of `&&` and `||`; an effect or a panic in there that precedes a hoisted
 `try` is moved behind it. For every statement that lowers with such a node there is a world
 in which the source panics at it, and the Go program bails before.
 */
module MovedEffects {
  import opened Wrappers
  import opened TryHoisting
  import opened TryHoistingProofs

  function Ids(e: Expr): set<int>
    decreases e, 1
  {
    match e
    case Literal(id) => {id}
    case Read(id) => {id}
    case Try(id, inner) => {id} + Ids(inner)
    case Node(id, _, operands) => {id} + IdsAll(operands)
    case Logic(id, left, right) => {id} + Ids(left) + Ids(right)
    case Opaque(id) => {id}
  }

  function IdsAll(es: seq<Expr>): set<int>
    decreases es, 0
  {
    if es == [] then {} else Ids(es[0]) + IdsAll(es[1..])
  }

  /** The expression is a tree: no node occurs twice. */
  predicate Unique(e: Expr)
    decreases e, 1
  {
    match e
    case Literal(_) => true
    case Read(_) => true
    case Try(id, inner) => id !in Ids(inner) && Unique(inner)
    case Node(id, _, operands) => id !in IdsAll(operands) && UniqueAll(operands)
    case Logic(id, left, right) =>
      id !in Ids(left) && id !in Ids(right) && Ids(left) !! Ids(right) && Unique(left) && Unique(right)
    case Opaque(_) => true
  }

  predicate UniqueAll(es: seq<Expr>)
    decreases es, 0
  {
    es != [] ==> Ids(es[0]) !! IdsAll(es[1..]) && Unique(es[0]) && UniqueAll(es[1..])
  }

  /** A `try` that hoisting reaches. */
  predicate HasTry(e: Expr)
    decreases e, 1
  {
    match e
    case Literal(_) => false
    case Read(_) => false
    case Try(_, _) => true
    case Node(_, _, operands) => HasTryAll(operands)
    case Logic(_, left, _) => HasTry(left)
    case Opaque(_) => false
  }

  predicate HasTryAll(es: seq<Expr>)
    decreases es, 0
  {
    es != [] && (HasTry(es[0]) || HasTryAll(es[1..]))
  }

  /** The nodes inside the `try`s that hoisting reaches. */
  function InTries(e: Expr): set<int>
    decreases e, 1
  {
    match e
    case Literal(_) => {}
    case Read(_) => {}
    case Try(id, inner) => {id} + Ids(inner)
    case Node(_, _, operands) => InTriesAll(operands)
    case Logic(_, left, _) => InTries(left)
    case Opaque(_) => {}
  }

  function InTriesAll(es: seq<Expr>): set<int>
    decreases es, 0
  {
    if es == [] then {} else InTries(es[0]) + InTriesAll(es[1..])
  }

  lemma {:induction false} Containment(e: Expr)
    ensures TrySet(e) <= Ids(e) && InTries(e) <= Ids(e)
    ensures Unique(e) ==> Distinct(e)
    decreases e, 1
  {
    match e
    case Literal(_) =>
    case Read(_) =>
    case Try(_, inner) => Containment(inner);
    case Node(_, _, operands) => ContainmentAll(operands);
    case Logic(_, left, right) => Containment(left); Containment(right);
    case Opaque(_) =>
  }

  lemma {:induction false} ContainmentAll(es: seq<Expr>)
    ensures TrySetAll(es) <= IdsAll(es) && InTriesAll(es) <= IdsAll(es)
    ensures UniqueAll(es) ==> DistinctAll(es)
    decreases es, 0
  {
    if es != [] { Containment(es[0]); ContainmentAll(es[1..]); }
  }

  lemma {:induction false} ActsIn(e: Expr)
    ensures Acts(e) <= Ids(e) && Reads(e) <= Ids(e) && TryActs(e) <= Acts(e) && Impures(e) <= Ids(e)
    decreases e, 1
  {
    match e
    case Try(_, inner) => ActsIn(inner);
    case Node(_, _, operands) => ActsAllIn(operands);
    case Logic(_, left, right) => ActsIn(left); ActsIn(right);
    case _ =>
  }

  lemma {:induction false} ActsAllIn(es: seq<Expr>)
    ensures ActsAll(es) <= IdsAll(es) && ReadsAll(es) <= IdsAll(es) && TryActsAll(es) <= ActsAll(es)
    ensures ImpuresAll(es) <= IdsAll(es)
    decreases es, 0
  {
    if es != [] { ActsIn(es[0]); ActsAllIn(es[1..]); }
  }

  lemma Pick(s: set<int>) returns (x: int)
    requires s != {}
    ensures x in s
  {
    if y :| y in s {
      x := y;
    } else {
      assert forall z :: z in s ==> z in {};
      assert false;
    }
  }

  lemma PickOutside(s: set<int>, t: set<int>) returns (x: int)
    requires !(s <= t)
    ensures x in s && x !in t
  {
    if y :| y in s && y !in t {
      x := y;
    } else {
      assert forall z :: z in s ==> z in t;
      assert false;
    }
  }

  // ---------------------------------------------------------------- traces

  /** Node x has acted in tr. */
  predicate Seen(tr: Trace, x: int) { exists i :: 0 <= i < |tr| && tr[i].id == x }

  lemma SeenSnoc(tr: Trace, id: int, vs: seq<Value>)
    ensures forall x :: Seen(tr + [Event(id, vs)], x) <==> Seen(tr, x) || x == id
  {
    var tr' := tr + [Event(id, vs)];
    assert tr'[|tr|].id == id;
    forall x ensures Seen(tr', x) <==> Seen(tr, x) || x == id {
      if Seen(tr, x) { var i :| 0 <= i < |tr| && tr[i].id == x; assert tr'[i].id == x; }
    }
  }

  /** Only nodes of ids act between tr and tr'. */
  ghost predicate Between(tr: Trace, tr': Trace, ids: set<int>) {
    && (forall x :: Seen(tr, x) ==> Seen(tr', x))
    && (forall x :: Seen(tr', x) ==> Seen(tr, x) || x in ids)
  }

  lemma BetweenMore(tr: Trace, tr': Trace, ids: set<int>, more: set<int>)
    requires Between(tr, tr', ids) && ids <= more
    ensures Between(tr, tr', more)
  {
  }

  lemma BetweenThen(tr: Trace, tr': Trace, tr'': Trace, ids: set<int>, ids': set<int>)
    requires Between(tr, tr', ids) && Between(tr', tr'', ids') && ids' <= ids
    ensures Between(tr, tr'', ids)
  {
  }

  lemma ActBetween(id: int, vs: seq<Value>, w: World, tr: Trace, ids: set<int>)
    requires id in ids
    ensures Between(tr, Act(id, vs, w, tr).tr, ids)
  {
    SeenSnoc(tr, id, vs);
  }

  lemma {:induction false} EvalBetween(e: Expr, f: Frame, w: World, tr: Trace)
    ensures Between(tr, Eval(e, f, w, tr).tr, Ids(e))
    decreases e, 1
  {
    match e
    case Literal(_) =>
    case Read(_) =>
    case Try(_, inner) => EvalBetween(inner, f, w, tr);
    case Node(id, k, operands) =>
      EvalAllBetween(operands, f, w, tr);
      var o := EvalAll(operands, f, w, tr);
      if o.Val? { ActBetween(id, o.x, w, o.tr, Ids(e)); }
    case Logic(_, left, right) =>
      EvalBetween(left, f, w, tr);
      var o := Eval(left, f, w, tr);
      if o.Val? { EvalBetween(right, f, w, o.tr); }
    case Opaque(id) => ActBetween(id, [], w, tr, Ids(e));
  }

  lemma {:induction false} EvalAllBetween(es: seq<Expr>, f: Frame, w: World, tr: Trace)
    ensures Between(tr, EvalAll(es, f, w, tr).tr, IdsAll(es))
    decreases es, 0
  {
    if es != [] {
      EvalBetween(es[0], f, w, tr);
      var o := Eval(es[0], f, w, tr);
      if o.Val? { EvalAllBetween(es[1..], f, w, o.tr); }
    }
  }

  /** What is left of e acts only at nodes of e. */
  lemma {:induction false} GoBetween(e: Expr, hoisted: map<int, int>, w: World, temps: Temps, tr: Trace)
    requires Emit(e, hoisted).Some?
    ensures Between(tr, GoEval(Emit(e, hoisted).value, w, temps, tr).tr, Ids(e))
    decreases e, 1
  {
    match e
    case Literal(_) =>
    case Read(_) =>
    case Try(_, _) =>
    case Node(id, k, operands) =>
      GoAllBetween(operands, hoisted, w, temps, tr);
      var o := GoEvalAll(EmitAll(operands, hoisted).value, w, temps, tr);
      if o.Val? { ActBetween(id, o.x, w, o.tr, Ids(e)); }
    case Logic(_, left, right) =>
      GoBetween(left, hoisted, w, temps, tr);
      var o := GoEval(Emit(left, hoisted).value, w, temps, tr);
      if o.Val? { GoBetween(right, hoisted, w, temps, o.tr); }
    case Opaque(id) => ActBetween(id, [], w, tr, Ids(e));
  }

  lemma {:induction false} GoAllBetween(es: seq<Expr>, hoisted: map<int, int>, w: World, temps: Temps, tr: Trace)
    requires EmitAll(es, hoisted).Some?
    ensures Between(tr, GoEvalAll(EmitAll(es, hoisted).value, w, temps, tr).tr, IdsAll(es))
    decreases es, 0
  {
    if es != [] {
      var gs := EmitAll(es, hoisted).value;
      assert gs[1..] == EmitAll(es[1..], hoisted).value;
      GoBetween(es[0], hoisted, w, temps, tr);
      var o := GoEval(gs[0], w, temps, tr);
      if o.Val? { GoAllBetween(es[1..], hoisted, w, temps, o.tr); }
    }
  }

  // ---------------------------------------------------------------- the world that tells the orders apart

  function BailMark(f: Frame): Value { Sum(BailTag(f), Atom(0), Atom(0)) }


  /** When node x yields `odd`: always, behind the effect `ev`, or before it. */
  datatype When = Always | Behind(ev: int) | Before(ev: int)

  /** Besides, the nodes of `falls` panic. */
  datatype Trap = Trap(x: int, when: When, odd: Value, falls: set<int>)

  predicate Clean(vs: seq<Value>) { forall i :: 0 <= i < |vs| ==> vs[i] == Atom(0) }
  function Blend(vs: seq<Value>, odd: Value): Value { if Clean(vs) then Atom(0) else odd }

  predicate Springs(t: Trap, id: int, tr: Trace) {
    && id == t.x
    && match t.when
       case Always => true
       case Behind(ev) => Seen(tr, ev)
       case Before(ev) => !Seen(tr, ev)
  }

  /** Every other node succeeds, and passes on what is odd; a conditional operand runs behind
      a clean value. */
  function Answer(t: Trap, id: int, vs: seq<Value>, tr: Trace): Value {
    if Springs(t, id, tr) then t.odd else Blend(vs, t.odd)
  }

  function Constant(t: Trap, id: int, vs: seq<Value>): Value {
    if id == t.x && t.when.Always? then t.odd else Blend(vs, t.odd)
  }

  function Unless(falls: bool, v: Value): Option<Value> { if falls then None else Some(v) }

  function Probe(t: Trap): World {
    World(id => Constant(t, id, []), (id, vs, tr) => Answer(t, id, vs, tr), (id, vs) => Constant(t, id, vs),
          (id, vs) => Unless(id in t.falls, Constant(t, id, vs)), (id, vs, tr) => Unless(id in t.falls, Answer(t, id, vs, tr)),
          (id, vs, tr) => Unless(id in t.falls, Answer(t, id, vs, tr)), (_, v) => v == Atom(0))
  }

  /** Code over the nodes of ids that starts behind tr does not meet the trap. */
  predicate Away(t: Trap, ids: set<int>, tr: Trace) {
    && (forall i :: i in ids ==> i !in t.falls)
    && (|| t.x !in ids
        || (t.when.Behind? && t.when.ev !in ids && !Seen(tr, t.when.ev))
        || (t.when.Before? && Seen(tr, t.when.ev)))
  }

  /** The same whatever the history. */
  predicate Off(t: Trap, ids: set<int>) { forall i :: i in ids ==> i != t.x && i !in t.falls }

  lemma StaysAway(t: Trap, ids: set<int>, tr: Trace, tr': Trace, ids': set<int>)
    requires Away(t, ids, tr) && Between(tr, tr', ids) && ids' <= ids
    ensures Away(t, ids', tr')
  {
  }

  lemma {:induction false} Calm(e: Expr, t: Trap, f: Frame, tr: Trace)
    requires Away(t, Ids(e), tr)
    ensures var o := Eval(e, f, Probe(t), tr); o.Val? && o.x == Atom(0)
    decreases e, 1
  {
    match e
    case Literal(_) =>
    case Read(_) =>
    case Try(_, inner) => Calm(inner, t, f, tr);
    case Node(id, k, operands) =>
      CalmAll(operands, t, f, tr);
      EvalAllBetween(operands, f, Probe(t), tr);
    case Logic(_, left, right) =>
      Calm(left, t, f, tr);
      EvalBetween(left, f, Probe(t), tr);
      Calm(right, t, f, Eval(left, f, Probe(t), tr).tr);
    case Opaque(_) =>
  }

  lemma {:induction false} CalmAll(es: seq<Expr>, t: Trap, f: Frame, tr: Trace)
    requires Away(t, IdsAll(es), tr)
    ensures var o := EvalAll(es, f, Probe(t), tr); o.Val? && Clean(o.x)
    decreases es, 0
  {
    if es != [] {
      Calm(es[0], t, f, tr);
      EvalBetween(es[0], f, Probe(t), tr);
      CalmAll(es[1..], t, f, Eval(es[0], f, Probe(t), tr).tr);
    }
  }

  ghost predicate AllGood(temps: Temps) { forall k :: k in temps ==> temps[k] == Atom(0) }

  lemma {:induction false} GoCalm(e: Expr, hoisted: map<int, int>, t: Trap, temps: Temps, tr: Trace)
    requires Emit(e, hoisted).Some? && Away(t, Ids(e), tr) && AllGood(temps)
    ensures var o := GoEval(Emit(e, hoisted).value, Probe(t), temps, tr); o.Val? && o.x == Atom(0)
    decreases e, 1
  {
    match e
    case Literal(_) =>
    case Read(_) =>
    case Try(_, _) =>
    case Node(id, k, operands) =>
      GoAllCalm(operands, hoisted, t, temps, tr);
      GoAllBetween(operands, hoisted, Probe(t), temps, tr);
    case Logic(_, left, right) =>
      GoCalm(left, hoisted, t, temps, tr);
      GoBetween(left, hoisted, Probe(t), temps, tr);
      GoCalm(right, hoisted, t, temps, GoEval(Emit(left, hoisted).value, Probe(t), temps, tr).tr);
    case Opaque(_) =>
  }

  lemma {:induction false} GoAllCalm(es: seq<Expr>, hoisted: map<int, int>, t: Trap, temps: Temps, tr: Trace)
    requires EmitAll(es, hoisted).Some? && Away(t, IdsAll(es), tr) && AllGood(temps)
    ensures var o := GoEvalAll(EmitAll(es, hoisted).value, Probe(t), temps, tr); o.Val? && Clean(o.x)
    decreases es, 0
  {
    if es != [] {
      var gs := EmitAll(es, hoisted).value;
      assert gs[1..] == EmitAll(es[1..], hoisted).value;
      GoCalm(es[0], hoisted, t, temps, tr);
      GoBetween(es[0], hoisted, Probe(t), temps, tr);
      GoAllCalm(es[1..], hoisted, t, temps, GoEval(gs[0], Probe(t), temps, tr).tr);
    }
  }

  // ---------------------------------------------------------------- preambles in that world

  /** e lowers from g, as part of a statement emitted with `hoisted`. */
  ghost predicate Lowered(e: Expr, f: Frame, g: Gen, hoisted: map<int, int>) {
    && Unique(e) && Distinct(e) && Untouched(TrySet(e), g.tryHoist)
    && Hoist(e, f, g).Some? && Grew(g, Hoist(e, f, g).value, TrySet(e))
    && Agrees(TrySet(e), Hoist(e, f, g).value, hoisted) && Emit(e, hoisted).Some?
  }

  ghost predicate LoweredAll(es: seq<Expr>, f: Frame, g: Gen, hoisted: map<int, int>) {
    && UniqueAll(es) && DistinctAll(es) && Untouched(TrySetAll(es), g.tryHoist)
    && HoistAll(es, f, g).Some? && Grew(g, HoistAll(es, f, g).value, TrySetAll(es))
    && Agrees(TrySetAll(es), HoistAll(es, f, g).value, hoisted) && EmitAll(es, hoisted).Some?
  }

  lemma LoweredParts(e: Expr, f: Frame, g: Gen, hoisted: map<int, int>)
    requires Lowered(e, f, g, hoisted)
    ensures e.Try? ==>
              && Walk(e.inner, false).Some? && Preamble(e.inner, f, g).Some? && Hoist(e.inner, f, g).Some?
              && Lowered(e.inner, f, g, Hoist(e.inner, f, g).value.tryHoist)
    ensures e.Node? ==> LoweredAll(e.operands, f, g, hoisted) && Hoist(e, f, g) == HoistAll(e.operands, f, g)
    ensures e.Logic? ==>
              Lowered(e.left, f, g, hoisted) && TrySet(e.right) == {} && Hoist(e, f, g) == Hoist(e.left, f, g)
  {
    match e
    case Try(id, inner) =>
      WalkOfEmitted(inner, f, g);
      HoistGrows(inner, f, g);
    case Node(_, _, operands) => HoistAllGrows(operands, f, g);
    case Logic(_, left, right) =>
      HoistGrows(left, f, g);
      TryFreeEmit(right, f, hoisted, QuietWorld(), map[], []);
    case _ =>
  }

  lemma LoweredCons(es: seq<Expr>, f: Frame, g: Gen, hoisted: map<int, int>)
    requires es != [] && LoweredAll(es, f, g, hoisted)
    ensures Lowered(es[0], f, g, hoisted)
    ensures var g1 := Hoist(es[0], f, g).value;
            var gn := HoistAll(es, f, g).value;
            && LoweredAll(es[1..], f, g1, hoisted)
            && Added(g, gn) == Added(g, g1) + Added(g1, gn)
  {
    hide Walk, Emit;
    HoistGrows(es[0], f, g);
    HoistAllGrows(es[1..], f, Hoist(es[0], f, g).value);
  }

  /** The state after one `try`, and its code. */
  lemma LoweredTry(id: int, inner: Expr, f: Frame, g: Gen, hoisted: map<int, int>)
    requires Lowered(Try(id, inner), f, g, hoisted)
    ensures BailForm(f).Some? && Hoist(inner, f, g).Some? && g.out <= Hoist(inner, f, g).value.out
    ensures var gi := Hoist(inner, f, g).value;
            && Emit(inner, gi.tryHoist).Some?
            && Added(g, Hoist(Try(id, inner), f, g).value) ==
               Added(g, gi) + BailCode(gi.counter + 1, Emit(inner, gi.tryHoist).value, f)
  {
    LoweredParts(Try(id, inner), f, g, hoisted);
  }

  /** One preamble, behind the run r of the preambles of its operand. */
  function AfterTry(tmp: int, e: GoExpr, f: Frame, w: World, r: Out<Temps>): Out<Temps> {
    if !r.Val? then r else
    match GoEval(e, w, r.x, r.tr)
    case Val(v, tr) => if TagOf(v) == BailTag(f) then Bail(BailValue(f, v), tr) else Val(r.x[tmp := v], tr)
    case stop => Stopped(stop)
  }

  lemma TryExec(id: int, inner: Expr, f: Frame, g: Gen, hoisted: map<int, int>, w: World, temps: Temps, tr: Trace)
    requires Lowered(Try(id, inner), f, g, hoisted)
    ensures Hoist(inner, f, g).Some? && g.out <= Hoist(inner, f, g).value.out
    ensures var gi := Hoist(inner, f, g).value;
            && Lowered(inner, f, g, gi.tryHoist)
            && Exec(Added(g, Hoist(Try(id, inner), f, g).value), w, temps, tr) ==
               AfterTry(gi.counter + 1, Emit(inner, gi.tryHoist).value, f, w, Exec(Added(g, gi), w, temps, tr))
  {
    hide Walk, Distinct, Unique, Untouched, Agrees, TrySet, Ids, InTries, GoEval, Exec;
    LoweredParts(Try(id, inner), f, g, hoisted);
    LoweredTry(id, inner, f, g, hoisted);
    var gi := Hoist(inner, f, g).value;
    var ge := Emit(inner, gi.tryHoist).value;
    ExecConcat(Added(g, gi), BailCode(gi.counter + 1, ge, f), w, temps, tr);
    var r := Exec(Added(g, gi), w, temps, tr);
    if r.Val? { BailCodeRuns(gi.counter + 1, ge, f, w, r.x, r.tr); }
  }

  lemma {:induction false} NoTry(e: Expr, f: Frame, g: Gen, hoisted: map<int, int>)
    requires Lowered(e, f, g, hoisted) && !HasTry(e)
    ensures TrySet(e) == {} && Hoist(e, f, g) == Some(g)
    decreases e, 1
  {
    LoweredParts(e, f, g, hoisted);
    match e
    case Node(_, _, operands) => NoTryAll(operands, f, g, hoisted);
    case Logic(_, left, _) => NoTry(left, f, g, hoisted);
    case _ =>
  }

  lemma {:induction false} NoTryAll(es: seq<Expr>, f: Frame, g: Gen, hoisted: map<int, int>)
    requires LoweredAll(es, f, g, hoisted) && !HasTryAll(es)
    ensures TrySetAll(es) == {} && HoistAll(es, f, g) == Some(g)
    decreases es, 0
  {
    if es != [] {
      LoweredCons(es, f, g, hoisted);
      NoTry(es[0], f, g, hoisted);
      NoTryAll(es[1..], f, g, hoisted);
    }
  }

  /** A preamble acts only at nodes inside the `try`s it hoists. */
  lemma {:induction false} ExecBetween(
    e: Expr, f: Frame, g: Gen, hoisted: map<int, int>, w: World, temps: Temps, tr: Trace)
    requires Lowered(e, f, g, hoisted)
    ensures Between(tr, Exec(Added(g, Hoist(e, f, g).value), w, temps, tr).tr, InTries(e))
    decreases e, 1
  {
    hide Walk, Emit;
    LoweredParts(e, f, g, hoisted);
    match e
    case Literal(_) => assert Added(g, g) == [];
    case Read(_) => assert Added(g, g) == [];
    case Opaque(_) => assert Added(g, g) == [];
    case Node(_, _, operands) => ExecAllBetween(operands, f, g, hoisted, w, temps, tr);
    case Logic(_, left, _) => ExecBetween(left, f, g, hoisted, w, temps, tr);
    case Try(id, inner) =>
      TryExec(id, inner, f, g, hoisted, w, temps, tr);
      var gi := Hoist(inner, f, g).value;
      ExecBetween(inner, f, g, gi.tryHoist, w, temps, tr);
      Containment(inner);
      AfterTryBetween(id, inner, f, gi, w, tr, Exec(Added(g, gi), w, temps, tr));
  }

  lemma AfterTryBetween(id: int, inner: Expr, f: Frame, gi: Gen, w: World, tr: Trace, r: Out<Temps>)
    requires Emit(inner, gi.tryHoist).Some? && InTries(inner) <= Ids(inner)
    requires Between(tr, r.tr, InTries(inner))
    ensures Between(tr, AfterTry(gi.counter + 1, Emit(inner, gi.tryHoist).value, f, w, r).tr, {id} + Ids(inner))
  {
    hide Between, Ids, InTries, Emit;
    BetweenMore(tr, r.tr, InTries(inner), {id} + Ids(inner));
    if r.Val? {
      GoBetween(inner, gi.tryHoist, w, r.x, r.tr);
      var o := GoEval(Emit(inner, gi.tryHoist).value, w, r.x, r.tr);
      BetweenThen(tr, r.tr, o.tr, {id} + Ids(inner), Ids(inner));
    }
  }

  lemma {:induction false} ExecAllBetween(
    es: seq<Expr>, f: Frame, g: Gen, hoisted: map<int, int>, w: World, temps: Temps, tr: Trace)
    requires LoweredAll(es, f, g, hoisted)
    ensures Between(tr, Exec(Added(g, HoistAll(es, f, g).value), w, temps, tr).tr, InTriesAll(es))
    decreases es, 0
  {
    hide Walk, Emit;
    if es == [] {
      assert Added(g, g) == [];
    } else {
      LoweredCons(es, f, g, hoisted);
      var g1 := Hoist(es[0], f, g).value;
      var gn := HoistAll(es, f, g).value;
      ExecBetween(es[0], f, g, hoisted, w, temps, tr);
      ExecConcat(Added(g, g1), Added(g1, gn), w, temps, tr);
      var r := Exec(Added(g, g1), w, temps, tr);
      if r.Val? { ExecAllBetween(es[1..], f, g1, hoisted, w, r.x, r.tr); }
    }
  }

  /** Away from the trap every preamble runs through. */
  lemma {:induction false} ExecCalm(
    e: Expr, f: Frame, g: Gen, hoisted: map<int, int>, t: Trap, temps: Temps, tr: Trace)
    requires Lowered(e, f, g, hoisted) && Away(t, InTries(e), tr) && AllGood(temps)
    ensures var r := Exec(Added(g, Hoist(e, f, g).value), Probe(t), temps, tr); r.Val? && AllGood(r.x)
    decreases e, 1
  {
    hide Walk, Emit, Distinct, Untouched, Agrees, Unique, TrySet, Probe;
    LoweredParts(e, f, g, hoisted);
    match e
    case Literal(_) => assert Added(g, g) == [];
    case Read(_) => assert Added(g, g) == [];
    case Opaque(_) => assert Added(g, g) == [];
    case Node(_, _, operands) => ExecAllCalm(operands, f, g, hoisted, t, temps, tr);
    case Logic(_, left, _) => ExecCalm(left, f, g, hoisted, t, temps, tr);
    case Try(id, inner) =>
      TryExec(id, inner, f, g, hoisted, Probe(t), temps, tr);
      var gi := Hoist(inner, f, g).value;
      Containment(inner);
      ExecCalm(inner, f, g, gi.tryHoist, t, temps, tr);
      ExecBetween(inner, f, g, gi.tryHoist, Probe(t), temps, tr);
      var r := Exec(Added(g, gi), Probe(t), temps, tr);
      GoCalm(inner, gi.tryHoist, t, r.x, r.tr);
  }

  lemma {:induction false} ExecAllCalm(
    es: seq<Expr>, f: Frame, g: Gen, hoisted: map<int, int>, t: Trap, temps: Temps, tr: Trace)
    requires LoweredAll(es, f, g, hoisted) && Away(t, InTriesAll(es), tr) && AllGood(temps)
    ensures var r := Exec(Added(g, HoistAll(es, f, g).value), Probe(t), temps, tr); r.Val? && AllGood(r.x)
    decreases es, 0
  {
    if es == [] {
      assert Added(g, g) == [];
    } else {
      LoweredCons(es, f, g, hoisted);
      var g1 := Hoist(es[0], f, g).value;
      var gn := HoistAll(es, f, g).value;
      ExecCalm(es[0], f, g, hoisted, t, temps, tr);
      ExecBetween(es[0], f, g, hoisted, Probe(t), temps, tr);
      ExecConcat(Added(g, g1), Added(g1, gn), Probe(t), temps, tr);
      var r := Exec(Added(g, g1), Probe(t), temps, tr);
      ExecAllCalm(es[1..], f, g1, hoisted, t, r.x, r.tr);
    }
  }

  // ---------------------------------------------------------------- a `try` that bails

  /** The node whose value a `try`-free expression has. */
  function Head(e: Expr): int {
    match e
    case Literal(id) => id
    case Read(id) => id
    case Try(id, _) => id
    case Node(id, _, _) => id
    case Logic(_, _, right) => Head(right)
    case Opaque(id) => id
  }

  /** The node that makes the first `try` to run bail. */
  function BadNode(e: Expr): int
    requires HasTry(e)
    decreases e, 1
  {
    match e
    case Try(_, inner) => if HasTry(inner) then BadNode(inner) else Head(inner)
    case Node(_, _, operands) => BadNodeOf(operands)
    case Logic(_, left, _) => BadNode(left)
  }

  function BadNodeOf(es: seq<Expr>): int
    requires HasTryAll(es)
    decreases es, 0
  {
    if HasTry(es[0]) then BadNode(es[0]) else BadNodeOf(es[1..])
  }

  lemma {:induction false} HeadIn(e: Expr)
    ensures Head(e) in Ids(e)
  {
    if e.Logic? { HeadIn(e.right); }
  }

  lemma {:induction false} BadNodeIn(e: Expr)
    requires HasTry(e)
    ensures BadNode(e) in Ids(e)
    decreases e, 1
  {
    match e
    case Try(_, inner) => if HasTry(inner) { BadNodeIn(inner); } else { HeadIn(inner); }
    case Node(_, _, operands) => BadNodeOfIn(operands);
    case Logic(_, left, _) => BadNodeIn(left);
  }

  lemma {:induction false} BadNodeOfIn(es: seq<Expr>)
    requires HasTryAll(es)
    ensures BadNodeOf(es) in IdsAll(es)
    decreases es, 0
  {
    if HasTry(es[0]) { BadNodeIn(es[0]); } else { BadNodeOfIn(es[1..]); }
  }

  /** Node `bad` yields a bail value, and x panics. */
  function Bad(bad: int, x: int, f: Frame): Trap { Trap(bad, Always, BailMark(f), {x}) }

  lemma {:induction false} HeadValue(e: Expr, x: int, f: Frame, tr: Trace)
    requires Unique(e) && TrySet(e) == {} && x !in Ids(e)
    ensures var o := Eval(e, f, Probe(Bad(Head(e), x, f)), tr); o.Val? && o.x == BailMark(f)
  {
    match e
    case Literal(_) =>
    case Read(_) =>
    case Try(_, _) =>
    case Node(id, k, operands) => CalmAll(operands, Bad(id, x, f), f, tr);
    case Logic(_, left, right) =>
      HeadIn(right);
      Calm(left, Bad(Head(right), x, f), f, tr);
      HeadValue(right, x, f, Eval(left, f, Probe(Bad(Head(right), x, f)), tr).tr);
    case Opaque(_) =>
  }

  /** Both programs leave at the first `try`. */
  lemma {:induction false} BothBail(
    e: Expr, x: int, f: Frame, g: Gen, hoisted: map<int, int>, temps: Temps, tr: Trace, tr2: Trace)
    requires Lowered(e, f, g, hoisted) && HasTry(e) && AllGood(temps) && x !in Ids(e)
    ensures Eval(e, f, Probe(Bad(BadNode(e), x, f)), tr).Bail?
    ensures Exec(Added(g, Hoist(e, f, g).value), Probe(Bad(BadNode(e), x, f)), temps, tr2).Bail?
    decreases e, 1
  {
    hide Walk, Emit, Hoist, Distinct, Untouched, Agrees, Unique, TrySet, Probe;
    LoweredParts(e, f, g, hoisted);
    match e
    case Node(_, _, operands) => BothBailAll(operands, x, f, g, hoisted, temps, tr, tr2);
    case Logic(_, left, _) => BothBail(left, x, f, g, hoisted, temps, tr, tr2);
    case Try(id, inner) =>
      var w := Probe(Bad(BadNode(e), x, f));
      TryExec(id, inner, f, g, hoisted, w, temps, tr2);
      var gi := Hoist(inner, f, g).value;
      if HasTry(inner) {
        BothBail(inner, x, f, g, gi.tryHoist, temps, tr, tr2);
      } else {
        NoTry(inner, f, g, gi.tryHoist);
        assert Added(g, g) == [];
        HeadValue(inner, x, f, tr);
        HeadValue(inner, x, f, tr2);
        TryFreeEmit(inner, f, g.tryHoist, w, temps, tr2);
      }
  }

  lemma {:induction false} BothBailAll(
    es: seq<Expr>, x: int, f: Frame, g: Gen, hoisted: map<int, int>, temps: Temps, tr: Trace, tr2: Trace)
    requires LoweredAll(es, f, g, hoisted) && HasTryAll(es) && AllGood(temps) && x !in IdsAll(es)
    ensures EvalAll(es, f, Probe(Bad(BadNodeOf(es), x, f)), tr).Bail?
    ensures Exec(Added(g, HoistAll(es, f, g).value), Probe(Bad(BadNodeOf(es), x, f)), temps, tr2).Bail?
    decreases es, 0
  {
    LoweredCons(es, f, g, hoisted);
    var g1 := Hoist(es[0], f, g).value;
    var gn := HoistAll(es, f, g).value;
    var bad := BadNodeOf(es);
    ExecConcat(Added(g, g1), Added(g1, gn), Probe(Bad(bad, x, f)), temps, tr2);
    if HasTry(es[0]) {
      BothBail(es[0], x, f, g, hoisted, temps, tr, tr2);
    } else {
      BadNodeOfIn(es[1..]);
      Containment(es[0]);
      Calm(es[0], Bad(bad, x, f), f, tr);
      ExecCalm(es[0], f, g, hoisted, Bad(bad, x, f), temps, tr2);
      var r := Exec(Added(g, g1), Probe(Bad(bad, x, f)), temps, tr2);
      BothBailAll(es[1..], x, f, g1, hoisted, r.x, Eval(es[0], f, Probe(Bad(bad, x, f)), tr).tr, r.tr);
    }
  }

  // ---------------------------------------------------------------- the effect that is moved

  /** Away from the trap every effect of the source happens. */
  lemma {:induction false} ActHappens(e: Expr, n: int, t: Trap, f: Frame, tr: Trace)
    requires n in Acts(e) && Off(t, Ids(e))
    ensures Seen(Eval(e, f, Probe(t), tr).tr, n)
    decreases e, 1
  {
    var w := Probe(t);
    match e
    case Try(_, inner) =>
      Calm(inner, t, f, tr);
      ActHappens(inner, n, t, f, tr);
    case Node(id, k, operands) =>
      CalmAll(operands, t, f, tr);
      var o := EvalAll(operands, f, w, tr);
      if n in ActsAll(operands) { ActAllHappens(operands, n, t, f, tr); }
      SeenSnoc(o.tr, id, o.x);
    case Logic(_, left, right) =>
      Calm(left, t, f, tr);
      var o := Eval(left, f, w, tr);
      EvalBetween(right, f, w, o.tr);
      if n in Acts(left) { ActHappens(left, n, t, f, tr); } else { ActHappens(right, n, t, f, o.tr); }
    case Opaque(id) => SeenSnoc(tr, id, []);
    case _ =>
  }

  lemma {:induction false} ActAllHappens(es: seq<Expr>, n: int, t: Trap, f: Frame, tr: Trace)
    requires n in ActsAll(es) && Off(t, IdsAll(es))
    ensures Seen(EvalAll(es, f, Probe(t), tr).tr, n)
    decreases es, 0
  {
    Calm(es[0], t, f, tr);
    var o := Eval(es[0], f, Probe(t), tr);
    CalmAll(es[1..], t, f, o.tr);
    EvalAllBetween(es[1..], f, Probe(t), o.tr);
    if n in Acts(es[0]) { ActHappens(es[0], n, t, f, tr); } else { ActAllHappens(es[1..], n, t, f, o.tr); }
  }

  /** Only the strict walk marks the frame impure: an effect in a conditional operand. */
  ghost predicate Overlooked(e: Expr) { StrictWalk(e, false) == Some(true) && Walk(e, false) == Some(false) }
  ghost predicate OverlookedAll(es: seq<Expr>) { StrictWalkAll(es, false) == Some(true) && WalkAll(es, false) == Some(false) }

  lemma {:induction false} WalkKeeps(e: Expr)
    ensures Walk(e, true).Some? ==> Walk(e, true).value && !HasTry(e)
    decreases e, 1
  {
    match e
    case Node(_, _, operands) => WalkAllKeeps(operands);
    case Logic(_, left, _) => WalkKeeps(left);
    case _ =>
  }

  lemma {:induction false} WalkAllKeeps(es: seq<Expr>)
    ensures WalkAll(es, true).Some? ==> WalkAll(es, true).value && !HasTryAll(es)
    decreases es, 0
  {
    if es != [] { WalkKeeps(es[0]); WalkAllKeeps(es[1..]); }
  }

  lemma {:induction false} StrictFailsAtTry(e: Expr)
    requires StrictWalk(e, true) == None
    ensures HasTry(e)
    decreases e, 1
  {
    match e
    case Node(_, _, operands) => StrictFailsAtTryAll(operands);
    case Logic(_, left, _) => StrictFailsAtTry(left);
    case _ =>
  }

  lemma {:induction false} StrictFailsAtTryAll(es: seq<Expr>)
    requires StrictWalkAll(es, true) == None
    ensures HasTryAll(es)
    decreases es, 0
  {
    if StrictWalk(es[0], true) == None {
      StrictFailsAtTry(es[0]);
    } else {
      StrictImpliesWalk(es[0], true, true);
      StrictFailsAtTryAll(es[1..]);
    }
  }

  /** Head and tail of an overlooked list: the effect is in the first element that has one. */
  lemma OverlookedCons(es: seq<Expr>)
    requires es != [] && OverlookedAll(es)
    ensures Overlooked(es[0]) || OverlookedAll(es[1..])
  {
    StrictImpliesWalk(es[0], false, false);
    if Walk(es[0], false).value { WalkAllKeeps(es[1..]); }
  }

  /** An overlooked effect is not part of any preamble. */
  lemma {:induction false} OverlookedEffect(e: Expr) returns (x: int)
    requires Unique(e) && Overlooked(e)
    ensures x in Impures(e) && x !in InTries(e)
    decreases e, 1
  {
    match e
    case Node(_, _, operands) => x := OverlookedEffectOf(operands);
    case Logic(_, left, right) =>
      Containment(left);
      if StrictWalk(left, false) == Some(true) {
        x := OverlookedEffect(left);
      } else {
        x := Pick(Impures(right));
        ActsIn(right);
      }
  }

  lemma {:induction false} OverlookedEffectOf(es: seq<Expr>) returns (x: int)
    requires UniqueAll(es) && OverlookedAll(es)
    ensures x in ImpuresAll(es) && x !in InTriesAll(es)
    decreases es, 0
  {
    OverlookedCons(es);
    Containment(es[0]);
    ContainmentAll(es[1..]);
    ActsIn(es[0]);
    ActsAllIn(es[1..]);
    if Overlooked(es[0]) { x := OverlookedEffect(es[0]); } else { x := OverlookedEffectOf(es[1..]); }
  }

  // ---------------------------------------------------------------- telling the two programs apart

  /** Some `try` of e bails first when node `bad` does, and the effect x of the same frame,
      in no preamble, comes before it. */
  predicate Moved(e: Expr, bad: int, x: int)
    decreases e, 1
  {
    match e
    case Try(_, inner) => Moved(inner, bad, x)
    case Node(_, _, operands) => MovedAll(operands, bad, x)
    case Logic(_, left, _) => Moved(left, bad, x)
    case _ => false
  }

  predicate MovedAll(es: seq<Expr>, bad: int, x: int)
    decreases es, 0
  {
    && es != []
    && (|| Moved(es[0], bad, x)
        || MovedAll(es[1..], bad, x)
        || (x in Impures(es[0]) && x !in InTries(es[0]) && HasTryAll(es[1..]) && bad == BadNodeOf(es[1..])))
  }

  lemma {:induction false} MovedIn(e: Expr, bad: int, x: int)
    requires Moved(e, bad, x)
    ensures bad in Ids(e) && x in Ids(e)
    decreases e, 1
  {
    match e
    case Try(_, inner) => MovedIn(inner, bad, x);
    case Node(_, _, operands) => MovedAllIn(operands, bad, x);
    case Logic(_, left, _) => MovedIn(left, bad, x);
  }

  lemma {:induction false} MovedAllIn(es: seq<Expr>, bad: int, x: int)
    requires MovedAll(es, bad, x)
    ensures bad in IdsAll(es) && x in IdsAll(es)
    decreases es, 0
  {
    if Moved(es[0], bad, x) {
      MovedIn(es[0], bad, x);
    } else if MovedAll(es[1..], bad, x) {
      MovedAllIn(es[1..], bad, x);
    } else {
      ActsIn(es[0]);
      BadNodeOfIn(es[1..]);
    }
  }

  /** What the code's walk passes and the strict one does not has an effect that moves. */
  lemma {:induction false} Culprit(e: Expr) returns (bad: int, x: int)
    requires Unique(e) && Walk(e, false).Some? && StrictWalk(e, false) == None
    ensures Moved(e, bad, x)
    decreases e, 1
  {
    match e
    case Try(_, inner) => bad, x := Culprit(inner);
    case Node(_, _, operands) => bad, x := CulpritOf(operands);
    case Logic(_, left, _) => bad, x := Culprit(left);
  }

  lemma {:induction false} CulpritOf(es: seq<Expr>) returns (bad: int, x: int)
    requires UniqueAll(es) && WalkAll(es, false).Some? && StrictWalkAll(es, false) == None
    ensures MovedAll(es, bad, x)
    decreases es, 0
  {
    if StrictWalk(es[0], false) == None {
      bad, x := Culprit(es[0]);
    } else {
      StrictImpliesWalk(es[0], false, false);
      if StrictWalk(es[0], false) == Some(false) {
        bad, x := CulpritOf(es[1..]);
      } else {
        StrictFailsAtTryAll(es[1..]);
        if Walk(es[0], false).value { WalkAllKeeps(es[1..]); }
        x := OverlookedEffect(es[0]);
        bad := BadNodeOf(es[1..]);
      }
    }
  }

  /** What runs up to a panic at x. */
  lemma {:induction false} Panics(e: Expr, bad: int, x: int, f: Frame, tr: Trace)
    requires Unique(e) && bad !in Ids(e) && x in Impures(e)
    ensures Eval(e, f, Probe(Bad(bad, x, f)), tr).Panic?
    decreases e, 1
  {
    var t := Bad(bad, x, f);
    match e
    case Try(_, inner) => Panics(inner, bad, x, f, tr);
    case Node(id, k, operands) =>
      if x in ImpuresAll(operands) { PanicsAll(operands, bad, x, f, tr); } else { CalmAll(operands, t, f, tr); }
    case Logic(_, left, right) =>
      ActsIn(left);
      ActsIn(right);
      if x in Impures(left) {
        Panics(left, bad, x, f, tr);
      } else {
        Calm(left, t, f, tr);
        Panics(right, bad, x, f, Eval(left, f, Probe(t), tr).tr);
      }
    case _ =>
  }

  lemma {:induction false} PanicsAll(es: seq<Expr>, bad: int, x: int, f: Frame, tr: Trace)
    requires UniqueAll(es) && bad !in IdsAll(es) && x in ImpuresAll(es)
    ensures EvalAll(es, f, Probe(Bad(bad, x, f)), tr).Panic?
    decreases es, 0
  {
    ActsIn(es[0]);
    ActsAllIn(es[1..]);
    if x in Impures(es[0]) {
      Panics(es[0], bad, x, f, tr);
    } else {
      Calm(es[0], Bad(bad, x, f), f, tr);
      PanicsAll(es[1..], bad, x, f, Eval(es[0], f, Probe(Bad(bad, x, f)), tr).tr);
    }
  }

  /** The source panics, and the Go program bails. */
  ghost predicate Apart<T, U>(source: Out<T>, go: Out<U>) { source.Panic? && go.Bail? }

  lemma {:induction false} MovedApart(
    e: Expr, f: Frame, g: Gen, hoisted: map<int, int>, bad: int, x: int, temps: Temps, tr: Trace, tr2: Trace)
    requires Lowered(e, f, g, hoisted) && Moved(e, bad, x) && AllGood(temps)
    ensures var w := Probe(Bad(bad, x, f));
            Apart(Eval(e, f, w, tr), Exec(Added(g, Hoist(e, f, g).value), w, temps, tr2))
    decreases e, 1
  {
    hide Walk, Emit, Hoist, Distinct, Untouched, Agrees, TrySet, Exec, Probe;
    LoweredParts(e, f, g, hoisted);
    match e
    case Node(_, _, operands) => MovedAllApart(operands, f, g, hoisted, bad, x, temps, tr, tr2);
    case Logic(_, left, _) => MovedApart(left, f, g, hoisted, bad, x, temps, tr, tr2);
    case Try(id, inner) =>
      TryExec(id, inner, f, g, hoisted, Probe(Bad(bad, x, f)), temps, tr2);
      MovedApart(inner, f, g, Hoist(inner, f, g).value.tryHoist, bad, x, temps, tr, tr2);
  }

  lemma {:induction false} MovedAllApart(
    es: seq<Expr>, f: Frame, g: Gen, hoisted: map<int, int>, bad: int, x: int, temps: Temps, tr: Trace, tr2: Trace)
    requires LoweredAll(es, f, g, hoisted) && MovedAll(es, bad, x) && AllGood(temps)
    ensures var w := Probe(Bad(bad, x, f));
            Apart(EvalAll(es, f, w, tr), Exec(Added(g, HoistAll(es, f, g).value), w, temps, tr2))
    decreases es, 0
  {
    hide Walk, Emit;
    LoweredCons(es, f, g, hoisted);
    var t := Bad(bad, x, f);
    var g1 := Hoist(es[0], f, g).value;
    var gn := HoistAll(es, f, g).value;
    ExecConcat(Added(g, g1), Added(g1, gn), Probe(t), temps, tr2);
    if Moved(es[0], bad, x) {
      MovedApart(es[0], f, g, hoisted, bad, x, temps, tr, tr2);
    } else {
      Containment(es[0]);
      HeadIsAway(es, bad, x, f, tr2);
      ExecCalm(es[0], f, g, hoisted, t, temps, tr2);
      var t1 := Exec(Added(g, g1), Probe(t), temps, tr2);
      if MovedAll(es[1..], bad, x) {
        MovedAllIn(es[1..], bad, x);
        Calm(es[0], t, f, tr);
        MovedAllApart(es[1..], f, g1, hoisted, bad, x, t1.x, Eval(es[0], f, Probe(t), tr).tr, t1.tr);
      } else {
        BadNodeOfIn(es[1..]);
        ActsIn(es[0]);
        Panics(es[0], bad, x, f, tr);
        BothBailAll(es[1..], x, f, g1, hoisted, t1.x, tr, t1.tr);
      }
    }
  }

  /** The preambles of the head run through. */
  lemma HeadIsAway(es: seq<Expr>, bad: int, x: int, f: Frame, tr: Trace)
    requires es != [] && UniqueAll(es) && MovedAll(es, bad, x) && !Moved(es[0], bad, x) && InTries(es[0]) <= Ids(es[0])
    ensures Away(Bad(bad, x, f), InTries(es[0]), tr) && bad !in Ids(es[0])
  {
    if MovedAll(es[1..], bad, x) { MovedAllIn(es[1..], bad, x); } else { BadNodeOfIn(es[1..]); }
  }
}
