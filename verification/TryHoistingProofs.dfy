/** Why hoisting is sound, and exactly when. */
module TryHoistingProofs {
  import opened Wrappers
  import opened TryHoisting

  // ---------------------------------------------------------------- side conditions

  function TrySet(e: Expr): set<int>
    decreases e, 1
  {
    match e
    case Literal(_) => {}
    case Read(_) => {}
    case Try(id, inner) => {id} + TrySet(inner)
    case Node(_, _, operands) => TrySetAll(operands)
    case Logic(_, left, right) => TrySet(left) + TrySet(right)
    case Opaque(_) => {}
  }

  function TrySetAll(es: seq<Expr>): set<int>
    decreases es, 0
  {
    if es == [] then {} else TrySet(es[0]) + TrySetAll(es[1..])
  }

  /** No two `try` nodes of the tree are the same node. */
  predicate Distinct(e: Expr)
    decreases e, 1
  {
    match e
    case Literal(_) => true
    case Read(_) => true
    case Try(id, inner) => id !in TrySet(inner) && Distinct(inner)
    case Node(_, _, operands) => DistinctAll(operands)
    case Logic(_, left, right) => TrySet(left) !! TrySet(right) && Distinct(left) && Distinct(right)
    case Opaque(_) => true
  }

  predicate DistinctAll(es: seq<Expr>)
    decreases es, 0
  {
    es != [] ==> TrySet(es[0]) !! TrySetAll(es[1..]) && Distinct(es[0]) && DistinctAll(es[1..])
  }

  /** The nodes of e that have an effect. */
  function Acts(e: Expr): set<int>
    decreases e, 1
  {
    match e
    case Literal(_) => {}
    case Read(_) => {}
    case Try(_, inner) => Acts(inner)
    case Node(id, k, operands) => ActsAll(operands) + if k.CallNode? then {id} else {}
    case Logic(_, left, right) => Acts(left) + Acts(right)
    case Opaque(id) => {id}
  }

  function ActsAll(es: seq<Expr>): set<int>
    decreases es, 0
  {
    if es == [] then {} else Acts(es[0]) + ActsAll(es[1..])
  }

  /** The nodes of e that have an effect or may panic. */
  function Impures(e: Expr): set<int>
    decreases e, 1
  {
    match e
    case Literal(_) => {}
    case Read(_) => {}
    case Try(_, inner) => Impures(inner)
    case Node(id, k, operands) => ImpuresAll(operands) + if MarksImpure(k) then {id} else {}
    case Logic(_, left, right) => Impures(left) + Impures(right)
    case Opaque(id) => {id}
  }

  function ImpuresAll(es: seq<Expr>): set<int>
    decreases es, 0
  {
    if es == [] then {} else Impures(es[0]) + ImpuresAll(es[1..])
  }

  /** The effects inside the `try`s that hoisting reaches: they move to the front. */
  function TryActs(e: Expr): set<int>
    decreases e, 1
  {
    match e
    case Literal(_) => {}
    case Read(_) => {}
    case Try(_, inner) => Acts(inner)
    case Node(_, _, operands) => TryActsAll(operands)
    case Logic(_, left, _) => TryActs(left)
    case Opaque(_) => {}
  }

  function TryActsAll(es: seq<Expr>): set<int>
    decreases es, 0
  {
    if es == [] then {} else TryActs(es[0]) + TryActsAll(es[1..])
  }

  /** The names and fields read in e outside its `try`s: they stay behind. */
  function Reads(e: Expr): set<int>
    decreases e, 1
  {
    match e
    case Literal(_) => {}
    case Read(id) => {id}
    case Try(_, _) => {}
    case Node(id, k, operands) => ReadsAll(operands) + if Observes(k) then {id} else {}
    case Logic(_, left, right) => Reads(left) + Reads(right)
    case Opaque(_) => {}
  }

  function ReadsAll(es: seq<Expr>): set<int>
    decreases es, 0
  {
    if es == [] then {} else Reads(es[0]) + ReadsAll(es[1..])
  }

  /** In e and in every `try` inside it, no read outside `still` precedes, in its frame,
      a `try` whose operand has an effect. `still` are the reads known not to change
      while the statement runs, of a `let` binding say. */
  predicate InPlace(e: Expr, still: set<int>)
    decreases e, 1
  {
    match e
    case Literal(_) => true
    case Read(_) => true
    case Try(_, inner) => InPlace(inner, still)
    case Node(_, _, operands) => InPlaceAll(operands, still)
    case Logic(_, left, _) => InPlace(left, still)
    case Opaque(_) => true
  }

  predicate InPlaceAll(es: seq<Expr>, still: set<int>)
    decreases es, 0
  {
    es != [] ==>
      && InPlace(es[0], still) && InPlaceAll(es[1..], still)
      && (Reads(es[0]) <= still || TryActsAll(es[1..]) == {})
  }

  /** The safety walk with the right operands of `&&` and `||` taken into account. */
  function StrictWalk(e: Expr, impure: bool): Option<bool>
    decreases e, 1
  {
    match e
    case Literal(_) => Some(impure)
    case Read(_) => Some(impure)
    case Try(_, inner) =>
      if impure then None else
      (match StrictWalk(inner, false)
       case Some(_) => Some(impure)
       case None => None)
    case Node(_, k, operands) =>
      (match StrictWalkAll(operands, impure)
       case Some(after) => Some(after || MarksImpure(k))
       case None => None)
    case Logic(_, left, right) =>
      (match StrictWalk(left, impure)
       case Some(after) => Some(after || Impures(right) != {})
       case None => None)
    case Opaque(_) => Some(true)
  }

  function StrictWalkAll(es: seq<Expr>, impure: bool): Option<bool>
    decreases es, 0
  {
    if es == [] then Some(impure) else
    match StrictWalk(es[0], impure)
    case Some(after) => StrictWalkAll(es[1..], after)
    case None => None
  }

  /** No effect, not even one in a conditional operand, precedes a `try` of its frame. */
  predicate StrictlyHoistable(es: seq<Expr>) { StrictWalkAll(es, false).Some? }

  /** The reads of `still` give the same value throughout one statement. */
  ghost predicate Steady(w: World, still: set<int>) {
    forall id, vs, tr :: id in still ==> w.read(id, vs, tr) == w.read(id, vs, [])
  }

  // ---------------------------------------------------------------- walks compared

  lemma {:induction false} StrictImpliesWalk(e: Expr, lax: bool, strict: bool)
    requires lax ==> strict
    requires StrictWalk(e, strict).Some?
    ensures Walk(e, lax).Some?
    ensures Walk(e, lax).value ==> StrictWalk(e, strict).value
    ensures strict ==> StrictWalk(e, strict).value
    decreases e, 1
  {
    match e
    case Literal(_) =>
    case Read(_) =>
    case Try(_, inner) => StrictImpliesWalk(inner, false, false);
    case Node(_, _, operands) => StrictImpliesWalkAll(operands, lax, strict);
    case Logic(_, left, _) => StrictImpliesWalk(left, lax, strict);
    case Opaque(_) =>
  }

  lemma {:induction false} StrictImpliesWalkAll(es: seq<Expr>, lax: bool, strict: bool)
    requires lax ==> strict
    requires StrictWalkAll(es, strict).Some?
    ensures WalkAll(es, lax).Some?
    ensures WalkAll(es, lax).value ==> StrictWalkAll(es, strict).value
    ensures strict ==> StrictWalkAll(es, strict).value
    decreases es, 0
  {
    if es != [] {
      StrictImpliesWalk(es[0], lax, strict);
      StrictImpliesWalkAll(es[1..], Walk(es[0], lax).value, StrictWalk(es[0], strict).value);
    }
  }

  // ---------------------------------------------------------------- shape of the generator's state

  /** No entry of m is for a node in ids. */
  ghost predicate Untouched(ids: set<int>, m: map<int, int>) {
    forall k :: k in ids ==> k !in m
  }

  ghost predicate Extends<K, V>(small: map<K, V>, big: map<K, V>) {
    forall k :: k in small ==> k in big && big[k] == small[k]
  }

  lemma ExtendsThen<K, V>(a: map<K, V>, b: map<K, V>, c: map<K, V>)
    requires Extends(a, b) && Extends(b, c)
    ensures Extends(a, c)
  {
  }

  /** g1 adds to g the temps and hoists of some of the `try` nodes in ids. */
  ghost predicate Grew(g: Gen, g1: Gen, ids: set<int>) {
    && g.out <= g1.out
    && g.counter <= g1.counter
    && Extends(g.tryHoist, g1.tryHoist)
    && (forall k :: k in g1.tryHoist ==> k in g.tryHoist || k in ids)
  }

  lemma {:induction false} HoistGrows(e: Expr, f: Frame, g: Gen)
    requires Distinct(e) && Untouched(TrySet(e), g.tryHoist)
    ensures Hoist(e, f, g).Some? ==> Grew(g, Hoist(e, f, g).value, TrySet(e))
    decreases e, 1
  {
    match e
    case Literal(_) =>
    case Read(_) =>
    case Try(_, inner) => HoistGrows(inner, f, g);
    case Node(_, _, operands) => HoistAllGrows(operands, f, g);
    case Logic(_, left, _) => HoistGrows(left, f, g);
    case Opaque(_) =>
  }

  lemma {:induction false} HoistAllGrows(es: seq<Expr>, f: Frame, g: Gen)
    requires DistinctAll(es) && Untouched(TrySetAll(es), g.tryHoist)
    ensures HoistAll(es, f, g).Some? ==> Grew(g, HoistAll(es, f, g).value, TrySetAll(es))
    decreases es, 0
  {
    if es != [] {
      HoistGrows(es[0], f, g);
      if Hoist(es[0], f, g).Some? {
        HoistAllGrows(es[1..], f, Hoist(es[0], f, g).value);
      }
    }
  }

  // ---------------------------------------------------------------- running code

  lemma {:induction false} ExecConcat(a: seq<GoStmt>, b: seq<GoStmt>, w: World, temps: Temps, tr: Trace)
    ensures Exec(a + b, w, temps, tr) ==
            match Exec(a, w, temps, tr)
            case Val(temps', tr') => Exec(b, w, temps', tr')
            case stop => stop
    decreases |a|
  {
    if a == [] {
      assert a + b == b;
    } else {
      assert (a + b)[0] == a[0] && (a + b)[1..] == a[1..] + b;
      match a[0]
      case Define(tmp, e) =>
        var o := GoEval(e, w, temps, tr);
        if o.Val? { ExecConcat(a[1..], b, w, temps[tmp := o.x], o.tr); }
      case BailIf(tmp, tag, ret) =>
        ExecConcat(a[1..], b, w, temps, tr);
    }
  }

  /** An emitted expression with no `try` node in it behaves as its source. */
  lemma {:induction false} TryFreeEmit(e: Expr, f: Frame, hoisted: map<int, int>, w: World, temps: Temps, tr: Trace)
    requires Emit(e, hoisted).Some? && Untouched(TrySet(e), hoisted)
    ensures TrySet(e) == {}
    ensures GoEval(Emit(e, hoisted).value, w, temps, tr) == Eval(e, f, w, tr)
    decreases e, 1
  {
    match e
    case Literal(_) =>
    case Read(_) =>
    case Try(_, _) =>
    case Node(_, k, operands) =>
      TryFreeEmitAll(operands, f, hoisted, w, temps, tr);
    case Logic(id, left, right) =>
      TryFreeEmit(left, f, hoisted, w, temps, tr);
      TryFreeEmit(right, f, hoisted, w, temps, tr);
      var o := Eval(left, f, w, tr);
      if o.Val? { TryFreeEmit(right, f, hoisted, w, temps, o.tr); }
    case Opaque(_) =>
  }

  lemma {:induction false} TryFreeEmitAll(es: seq<Expr>, f: Frame, hoisted: map<int, int>, w: World, temps: Temps, tr: Trace)
    requires EmitAll(es, hoisted).Some? && Untouched(TrySetAll(es), hoisted)
    ensures TrySetAll(es) == {}
    ensures GoEvalAll(EmitAll(es, hoisted).value, w, temps, tr) == EvalAll(es, f, w, tr)
    decreases es, 0
  {
    if es != [] {
      var gs := EmitAll(es, hoisted).value;
      assert gs[1..] == EmitAll(es[1..], hoisted).value;
      TryFreeEmit(es[0], f, hoisted, w, temps, tr);
      TryFreeEmitAll(es[1..], f, hoisted, w, temps, tr);
      var o := Eval(es[0], f, w, tr);
      if o.Val? { TryFreeEmitAll(es[1..], f, hoisted, w, temps, o.tr); }
    }
  }

  /** e has a value whatever happened before, and leaves no trace. */
  ghost predicate Silent(e: GoExpr, w: World, temps: Temps) {
    forall tr :: GoEval(e, w, temps, tr).Val? && GoEval(e, w, temps, tr).tr == tr
  }

  ghost predicate SilentAll(es: seq<GoExpr>, w: World, temps: Temps) {
    forall tr :: GoEvalAll(es, w, temps, tr).Val? && GoEvalAll(es, w, temps, tr).tr == tr
  }

  /** Moreover it is always the same value. */
  ghost predicate Quiet(e: GoExpr, w: World, temps: Temps) {
    && GoEval(e, w, temps, []).Val?
    && forall tr :: GoEval(e, w, temps, tr) == Val(GoEval(e, w, temps, []).x, tr)
  }

  ghost predicate QuietAll(es: seq<GoExpr>, w: World, temps: Temps) {
    && GoEvalAll(es, w, temps, []).Val?
    && forall tr :: GoEvalAll(es, w, temps, tr) == Val(GoEvalAll(es, w, temps, []).x, tr)
  }

  lemma SilentAt(e: GoExpr, w: World, temps: Temps, tr: Trace)
    requires Silent(e, w, temps)
    ensures GoEval(e, w, temps, tr).Val? && GoEval(e, w, temps, tr).tr == tr
  {
  }

  lemma QuietCons(es: seq<GoExpr>, w: World, temps: Temps)
    requires es != [] && Quiet(es[0], w, temps)
    ensures QuietAll(es[1..], w, temps) ==> QuietAll(es, w, temps)
    ensures forall tr :: GoEvalAll(es, w, temps, tr) ==
              match GoEvalAll(es[1..], w, temps, tr)
              case Val(vs, tr') => Val([GoEval(es[0], w, temps, []).x] + vs, tr')
              case stop => stop
  {
  }

  lemma SilentCons(es: seq<GoExpr>, w: World, temps: Temps)
    requires es != [] && Silent(es[0], w, temps)
    ensures SilentAll(es[1..], w, temps) ==> SilentAll(es, w, temps)
    ensures forall tr :: GoEvalAll(es, w, temps, tr) ==
              match GoEvalAll(es[1..], w, temps, tr)
              case Val(vs, tr') => Val([GoEval(es[0], w, temps, tr).x] + vs, tr')
              case stop => stop
  {
  }

  lemma {:induction false} NoTrace(e: Expr, f: Frame, w: World, tr: Trace)
    requires Acts(e) == {}
    ensures Eval(e, f, w, tr).tr == tr
    decreases e, 1
  {
    match e
    case Try(_, inner) => NoTrace(inner, f, w, tr);
    case Node(_, _, operands) => NoTraceAll(operands, f, w, tr);
    case Logic(_, left, right) =>
      NoTrace(left, f, w, tr);
      NoTrace(right, f, w, tr);
    case _ =>
  }

  lemma {:induction false} NoTraceAll(es: seq<Expr>, f: Frame, w: World, tr: Trace)
    requires ActsAll(es) == {}
    ensures EvalAll(es, f, w, tr).tr == tr
    decreases es, 0
  {
    if es != [] {
      NoTrace(es[0], f, w, tr);
      NoTraceAll(es[1..], f, w, tr);
    }
  }

  lemma NodeQuiet(id: int, k: Kind, es: seq<GoExpr>, still: set<int>, w: World, temps: Temps)
    requires !MarksImpure(k) && SilentAll(es, w, temps) && Steady(w, still)
    ensures Silent(GoNode(id, k, es), w, temps)
    ensures QuietAll(es, w, temps) && (Observes(k) ==> id in still) ==> Quiet(GoNode(id, k, es), w, temps)
  {
    forall tr ensures GoEval(GoNode(id, k, es), w, temps, tr) == Finish(id, k, GoEvalAll(es, w, temps, tr).x, w, tr) {
      assert GoEvalAll(es, w, temps, tr).Val?;
    }
  }

  lemma LogicQuiet(id: int, l: GoExpr, r: GoExpr, w: World, temps: Temps)
    requires Silent(l, w, temps) && Silent(r, w, temps)
    ensures Silent(GoLogic(id, l, r), w, temps)
    ensures Quiet(l, w, temps) && Quiet(r, w, temps) ==> Quiet(GoLogic(id, l, r), w, temps)
  {
    forall tr
      ensures GoEval(GoLogic(id, l, r), w, temps, tr) ==
              if w.enters(id, GoEval(l, w, temps, tr).x) then GoEval(r, w, temps, tr) else GoEval(l, w, temps, tr)
    {
      assert GoEval(l, w, temps, tr).Val?;
    }
  }

  /** What is emitted for an expression without effects. */
  lemma {:induction false} EmitSilent(e: Expr, hoisted: map<int, int>, still: set<int>, w: World, temps: Temps)
    requires Emit(e, hoisted).Some? && Impures(e) == {} && Steady(w, still)
    ensures Silent(Emit(e, hoisted).value, w, temps)
    ensures Reads(e) <= still ==> Quiet(Emit(e, hoisted).value, w, temps)
    decreases e, 1
  {
    match e
    case Node(id, k, operands) =>
      EmitAllSilent(operands, hoisted, still, w, temps);
      NodeQuiet(id, k, EmitAll(operands, hoisted).value, still, w, temps);
    case Logic(id, left, right) =>
      EmitSilent(left, hoisted, still, w, temps);
      EmitSilent(right, hoisted, still, w, temps);
      LogicQuiet(id, Emit(left, hoisted).value, Emit(right, hoisted).value, w, temps);
    case _ =>
  }

  lemma {:induction false} EmitAllSilent(es: seq<Expr>, hoisted: map<int, int>, still: set<int>, w: World, temps: Temps)
    requires EmitAll(es, hoisted).Some? && ImpuresAll(es) == {} && Steady(w, still)
    ensures SilentAll(EmitAll(es, hoisted).value, w, temps)
    ensures ReadsAll(es) <= still ==> QuietAll(EmitAll(es, hoisted).value, w, temps)
    decreases es, 0
  {
    if es != [] {
      var gs := EmitAll(es, hoisted).value;
      assert gs[1..] == EmitAll(es[1..], hoisted).value;
      EmitSilent(es[0], hoisted, still, w, temps);
      EmitAllSilent(es[1..], hoisted, still, w, temps);
      SilentCons(gs, w, temps);
      if ReadsAll(es) <= still { QuietCons(gs, w, temps); }
    }
  }

  // ---------------------------------------------------------------- soundness

  ghost predicate Fresh(temps: Temps, n: int) { forall k :: k in temps ==> k <= n }

  /** The statements hoisting added to the output. */
  function Added(g: Gen, g1: Gen): seq<GoStmt>
    requires g.out <= g1.out
  {
    g1.out[|g.out|..]
  }

  /** `hoisted`, the map the rest of the statement is emitted with, knows the
      `try` nodes of e that g1 hoisted and no other of e's. */
  ghost predicate Agrees(e: set<int>, g1: Gen, hoisted: map<int, int>) {
    Extends(g1.tryHoist, hoisted) && forall k :: k in hoisted && k in e ==> k in g1.tryHoist
  }

  /** r, the run of the preamble, followed by the emitted expression, is left-to-right evaluation. */
  ghost predicate Matches<T>(r: Out<Temps>, temps: Temps, counter: int, source: Out<T>) {
    && (r.Val? ==> Extends(temps, r.x) && Fresh(r.x, counter))
    && (!r.Val? ==> source == Stopped(r))
  }

  function BailCode(tmp: int, e: GoExpr, f: Frame): seq<GoStmt>
    requires BailForm(f).Some?
  {
    [Define(tmp, e), BailIf(tmp, BailForm(f).value.0, BailForm(f).value.1)]
  }

  /** The two statements of one preamble. */
  lemma BailCodeRuns(tmp: int, e: GoExpr, f: Frame, w: World, temps: Temps, tr: Trace)
    requires BailForm(f).Some?
    ensures var r := Exec(BailCode(tmp, e, f), w, temps, tr);
            match GoEval(e, w, temps, tr)
            case Val(v, tr') =>
              if TagOf(v) == BailTag(f) then r == Bail(BailValue(f, v), tr') else r == Val(temps[tmp := v], tr')
            case stop => r == Stopped(stop)
  {
    var (tag, ret) := BailForm(f).value;
    var rest := BailCode(tmp, e, f)[1..];
    assert rest == [BailIf(tmp, tag, ret)] && rest[1..] == [];
    var o := GoEval(e, w, temps, tr);
    if o.Val? {
      var temps' := temps[tmp := o.x];
      assert Exec(rest, w, temps', o.tr) ==
             if TagOf(o.x) == tag then Bail(GoReturnValue(ret, o.x), o.tr) else Exec(rest[1..], w, temps', o.tr);
    }
  }

  /** One whole preamble, given that the hoists of its inner expression are sound. */
  lemma PreambleRuns(
    pre: seq<GoStmt>, n: int, e: GoExpr, f: Frame, w: World, temps: Temps, tr: Trace, inner: Out<Value>)
    requires BailForm(f).Some? && Fresh(temps, n)
    requires Matches(Exec(pre, w, temps, tr), temps, n, inner)
    requires var r := Exec(pre, w, temps, tr); r.Val? ==> inner == GoEval(e, w, r.x, r.tr)
    ensures var r := Exec(pre + BailCode(n + 1, e, f), w, temps, tr);
            && Matches(r, temps, n + 1, Unwrap(f, inner))
            && (r.Val? ==> n + 1 in r.x && Unwrap(f, inner) == Val(PayloadOf(r.x[n + 1]), r.tr))
  {
    ExecConcat(pre, BailCode(n + 1, e, f), w, temps, tr);
    var r := Exec(pre, w, temps, tr);
    if r.Val? {
      BailCodeRuns(n + 1, e, f, w, r.x, r.tr);
    }
  }

  /** e may be hoisted from state g, its temps are new, and it is emitted with `hoisted`. */
  ghost predicate Ready(e: Expr, impure: bool, still: set<int>, f: Frame, g: Gen, hoisted: map<int, int>, temps: Temps) {
    && StrictWalk(e, impure).Some? && InPlace(e, still)
    && Distinct(e) && Untouched(TrySet(e), g.tryHoist) && Fresh(temps, g.counter)
    && Hoist(e, f, g).Some? && Grew(g, Hoist(e, f, g).value, TrySet(e))
    && Agrees(TrySet(e), Hoist(e, f, g).value, hoisted) && Emit(e, hoisted).Some?
  }

  ghost predicate ReadyAll(es: seq<Expr>, impure: bool, still: set<int>, f: Frame, g: Gen, hoisted: map<int, int>, temps: Temps) {
    && StrictWalkAll(es, impure).Some? && InPlaceAll(es, still)
    && DistinctAll(es) && Untouched(TrySetAll(es), g.tryHoist) && Fresh(temps, g.counter)
    && HoistAll(es, f, g).Some? && Grew(g, HoistAll(es, f, g).value, TrySetAll(es))
    && Agrees(TrySetAll(es), HoistAll(es, f, g).value, hoisted) && EmitAll(es, hoisted).Some?
  }

  /** The preamble of e, then the expression left of e evaluated in any state `final` that
      keeps the temps, is the left-to-right evaluation of e. */
  ghost predicate Sound(
    e: Expr, impure: bool, still: set<int>, f: Frame, g: Gen, hoisted: map<int, int>, w: World, temps: Temps, tr: Trace, final: Temps)
    requires Ready(e, impure, still, f, g, hoisted, temps)
  {
    var g1 := Hoist(e, f, g).value;
    var ge := Emit(e, hoisted).value;
    var r := Exec(Added(g, g1), w, temps, tr);
    && (impure ==> g1 == g)
    && Matches(r, temps, g1.counter, Eval(e, f, w, tr))
    && (TryActs(e) == {} ==> r.tr == tr)
    && (r.Val? && Extends(r.x, final) ==>
          && Eval(e, f, w, tr) == GoEval(ge, w, final, r.tr)
          && (!StrictWalk(e, impure).value ==> Silent(ge, w, final) && (Reads(e) <= still ==> Quiet(ge, w, final))))
  }

  ghost predicate SoundAll(
    es: seq<Expr>, impure: bool, still: set<int>, f: Frame, g: Gen, hoisted: map<int, int>, w: World, temps: Temps, tr: Trace, final: Temps)
    requires ReadyAll(es, impure, still, f, g, hoisted, temps)
  {
    var g1 := HoistAll(es, f, g).value;
    var gs := EmitAll(es, hoisted).value;
    var r := Exec(Added(g, g1), w, temps, tr);
    && (impure ==> g1 == g)
    && Matches(r, temps, g1.counter, EvalAll(es, f, w, tr))
    && (TryActsAll(es) == {} ==> r.tr == tr)
    && (r.Val? && Extends(r.x, final) ==>
          && EvalAll(es, f, w, tr) == GoEvalAll(gs, w, final, r.tr)
          && (!StrictWalkAll(es, impure).value ==>
                SilentAll(gs, w, final) && (ReadsAll(es) <= still ==> QuietAll(gs, w, final))))
  }

  lemma {:induction false} HoistSound(
    e: Expr, impure: bool, still: set<int>, f: Frame, g: Gen, hoisted: map<int, int>, w: World, temps: Temps, tr: Trace, final: Temps)
    requires Steady(w, still) && Ready(e, impure, still, f, g, hoisted, temps)
    ensures Sound(e, impure, still, f, g, hoisted, w, temps, tr, final)
    decreases e, 1
  {
    hide Sound, SoundAll, Steady, StrictWalk, InPlace;
    match e
    case Literal(_) => LeafSound(e, impure, still, f, g, hoisted, w, temps, tr, final);
    case Read(_) => LeafSound(e, impure, still, f, g, hoisted, w, temps, tr, final);
    case Opaque(_) => LeafSound(e, impure, still, f, g, hoisted, w, temps, tr, final);
    case Node(_, k, operands) =>
      ReadyParts(e, impure, still, f, g, hoisted, temps);
      HoistAllSound(operands, impure, still, f, g, hoisted, w, temps, tr, final);
      NodeSound(e, impure, still, f, g, hoisted, w, temps, tr, final);
    case Logic(id, left, right) =>
      ReadyParts(e, impure, still, f, g, hoisted, temps);
      HoistSound(left, impure, still, f, g, hoisted, w, temps, tr, final);
      LogicSound(id, left, right, impure, still, f, g, hoisted, w, temps, tr, final);
    case Try(id, inner) =>
      ReadyParts(e, impure, still, f, g, hoisted, temps);
      var gi := Hoist(inner, f, g).value;
      var ri := Exec(Added(g, gi), w, temps, tr);
      HoistSound(inner, false, still, f, g, gi.tryHoist, w, temps, tr, if ri.Val? then ri.x else map[]);
      TrySound(id, inner, impure, still, f, g, hoisted, w, temps, tr, final);
  }

  lemma ReadyParts(e: Expr, impure: bool, still: set<int>, f: Frame, g: Gen, hoisted: map<int, int>, temps: Temps)
    requires Ready(e, impure, still, f, g, hoisted, temps)
    ensures e.Try? ==>
              && Walk(e.inner, false).Some? && Preamble(e.inner, f, g).Some? && Hoist(e.inner, f, g).Some?
              && Ready(e.inner, false, still, f, g, Hoist(e.inner, f, g).value.tryHoist, temps)
    ensures e.Node? ==> ReadyAll(e.operands, impure, still, f, g, hoisted, temps)
    ensures e.Logic? ==> Ready(e.left, impure, still, f, g, hoisted, temps) && Untouched(TrySet(e.right), hoisted)
  {
    match e
    case Try(id, inner) =>
      assert Preamble(inner, f, g).Some?;
      StrictImpliesWalk(inner, false, false);
      HoistGrows(inner, f, g);
    case Node(_, _, operands) => HoistAllGrows(operands, f, g);
    case Logic(_, left, _) => HoistGrows(left, f, g);
    case _ =>
  }

  lemma LeafSound(
    e: Expr, impure: bool, still: set<int>, f: Frame, g: Gen, hoisted: map<int, int>, w: World, temps: Temps, tr: Trace, final: Temps)
    requires Steady(w, still) && Ready(e, impure, still, f, g, hoisted, temps) && (e.Literal? || e.Read? || e.Opaque?)
    ensures Sound(e, impure, still, f, g, hoisted, w, temps, tr, final)
  {
    hide Walk, InPlace, Grew, Agrees;
    assert Added(g, g) == [];
  }

  lemma NodeSound(
    e: Expr, impure: bool, still: set<int>, f: Frame, g: Gen, hoisted: map<int, int>, w: World, temps: Temps, tr: Trace, final: Temps)
    requires Steady(w, still) && Ready(e, impure, still, f, g, hoisted, temps) && e.Node?
    requires ReadyAll(e.operands, impure, still, f, g, hoisted, temps)
    requires SoundAll(e.operands, impure, still, f, g, hoisted, w, temps, tr, final)
    ensures Sound(e, impure, still, f, g, hoisted, w, temps, tr, final)
  {
    hide Quiet, Silent, QuietAll, SilentAll, Steady;
    var gs := EmitAll(e.operands, hoisted).value;
    assert Hoist(e, f, g) == HoistAll(e.operands, f, g);
    assert Emit(e, hoisted) == Some(GoNode(e.id, e.kind, gs));
    if !StrictWalk(e, impure).value && SilentAll(gs, w, final) {
      NodeQuiet(e.id, e.kind, gs, still, w, final);
    }
  }

  lemma LogicValue(
    id: int, left: Expr, right: Expr, f: Frame, hoisted: map<int, int>, w: World, final: Temps, tr: Trace, tr1: Trace)
    requires Emit(Logic(id, left, right), hoisted).Some? && Untouched(TrySet(right), hoisted)
    requires Eval(left, f, w, tr) == GoEval(Emit(left, hoisted).value, w, final, tr1)
    ensures Eval(Logic(id, left, right), f, w, tr) == GoEval(Emit(Logic(id, left, right), hoisted).value, w, final, tr1)
  {
    TryFreeEmit(right, f, hoisted, w, final, Eval(left, f, w, tr).tr);
  }

  lemma LogicSound(
    id: int, left: Expr, right: Expr, impure: bool, still: set<int>, f: Frame, g: Gen, hoisted: map<int, int>, w: World,
    temps: Temps, tr: Trace, final: Temps)
    requires Steady(w, still) && Ready(Logic(id, left, right), impure, still, f, g, hoisted, temps)
    requires Ready(left, impure, still, f, g, hoisted, temps) && Untouched(TrySet(right), hoisted)
    requires Sound(left, impure, still, f, g, hoisted, w, temps, tr, final)
    ensures Sound(Logic(id, left, right), impure, still, f, g, hoisted, w, temps, tr, final)
  {
    hide Quiet, Silent, Steady, Walk, Distinct, Untouched, Agrees, Fresh, Extends, TrySet, BailForm, Preamble;
    var e := Logic(id, left, right);
    var gl, gr := Emit(left, hoisted).value, Emit(right, hoisted).value;
    assert Hoist(e, f, g) == Hoist(left, f, g) && Emit(e, hoisted) == Some(GoLogic(id, gl, gr));
    var r := Exec(Added(g, Hoist(left, f, g).value), w, temps, tr);
    if r.Val? && Extends(r.x, final) {
      LogicValue(id, left, right, f, hoisted, w, final, tr, r.tr);
      if !StrictWalk(e, impure).value {
        EmitSilent(right, hoisted, still, w, final);
        LogicQuiet(id, gl, gr, w, final);
      }
    }
  }

  lemma TrySound(
    id: int, inner: Expr, impure: bool, still: set<int>, f: Frame, g: Gen, hoisted: map<int, int>, w: World,
    temps: Temps, tr: Trace, final: Temps)
    requires Ready(Try(id, inner), impure, still, f, g, hoisted, temps) && Walk(inner, false).Some? && Preamble(inner, f, g).Some?
    requires Hoist(inner, f, g).Some? && Ready(inner, false, still, f, g, Hoist(inner, f, g).value.tryHoist, temps)
    requires var gi := Hoist(inner, f, g).value;
             var ri := Exec(Added(g, gi), w, temps, tr);
             Sound(inner, false, still, f, g, gi.tryHoist, w, temps, tr, if ri.Val? then ri.x else map[])
    ensures Sound(Try(id, inner), impure, still, f, g, hoisted, w, temps, tr, final)
  {
    hide Walk, Steady, Distinct, InPlace, Exec, Untouched;
    var gi := Hoist(inner, f, g).value;
    var g1 := Hoist(Try(id, inner), f, g).value;
    var ge := Emit(inner, gi.tryHoist).value;
    PreambleRuns(Added(g, gi), gi.counter, ge, f, w, temps, tr, Eval(inner, f, w, tr));
    assert Added(g, g1) == Added(g, gi) + BailCode(gi.counter + 1, ge, f);
    if Acts(inner) == {} { NoTrace(inner, f, w, tr); }
  }

  lemma {:induction false} HoistAllSound(
    es: seq<Expr>, impure: bool, still: set<int>, f: Frame, g: Gen, hoisted: map<int, int>, w: World, temps: Temps, tr: Trace, final: Temps)
    requires Steady(w, still) && ReadyAll(es, impure, still, f, g, hoisted, temps)
    ensures SoundAll(es, impure, still, f, g, hoisted, w, temps, tr, final)
    decreases es, 0
  {
    hide Steady, Walk;
    if es == [] {
      assert Added(g, g) == [];
    } else {
      ReadyCons(es, impure, still, f, g, hoisted, temps);
      var g1 := Hoist(es[0], f, g).value;
      var after := StrictWalk(es[0], impure).value;
      var r1 := Exec(Added(g, g1), w, temps, tr);
      HoistSound(es[0], impure, still, f, g, hoisted, w, temps, tr, if r1.Val? then r1.x else map[]);
      HoistSound(es[0], impure, still, f, g, hoisted, w, temps, tr, final);
      if r1.Val? {
        HoistAllSound(es[1..], after, still, f, g1, hoisted, w, r1.x, r1.tr, final);
        var head := Eval(es[0], f, w, tr);
        if after && head.Val? {
          HoistAllSound(es[1..], after, still, f, g1, hoisted, w, r1.x, head.tr, final);
        }
      }
      if after {
        ConsBehindEffect(es, impure, still, f, g, hoisted, w, temps, tr, final);
      } else {
        ConsBeforeEffect(es, impure, still, f, g, hoisted, w, temps, tr, final);
      }
    }
  }

  lemma ReadyCons(es: seq<Expr>, impure: bool, still: set<int>, f: Frame, g: Gen, hoisted: map<int, int>, temps: Temps)
    requires es != [] && ReadyAll(es, impure, still, f, g, hoisted, temps)
    ensures Ready(es[0], impure, still, f, g, hoisted, temps)
    ensures var g1 := Hoist(es[0], f, g).value;
            var after := StrictWalk(es[0], impure).value;
            && (impure ==> after)
            && Grew(g1, HoistAll(es, f, g).value, TrySetAll(es[1..]))
            && forall temps' :: Fresh(temps', g1.counter) ==> ReadyAll(es[1..], after, still, f, g1, hoisted, temps')
    ensures EmitAll(es, hoisted).value[1..] == EmitAll(es[1..], hoisted).value
  {
    HoistGrows(es[0], f, g);
    HoistAllGrows(es[1..], f, Hoist(es[0], f, g).value);
    StrictImpliesWalk(es[0], impure, impure);
  }

  /** A head without effects is evaluated behind the tail's preamble: it has one value, or
      the preamble has no effect. */
  lemma ConsValue(es: seq<Expr>, f: Frame, gs: seq<GoExpr>, w: World, final: Temps, tr: Trace, tr1: Trace, trn: Trace)
    requires es != [] && gs != [] && Silent(gs[0], w, final)
    requires Eval(es[0], f, w, tr) == GoEval(gs[0], w, final, tr1)
    requires EvalAll(es[1..], f, w, tr1) == GoEvalAll(gs[1..], w, final, trn)
    requires Quiet(gs[0], w, final) || trn == tr1
    ensures EvalAll(es, f, w, tr) == GoEvalAll(gs, w, final, trn)
  {
    assert GoEval(gs[0], w, final, tr1).Val? && GoEval(gs[0], w, final, trn).Val?;
    assert GoEval(gs[0], w, final, tr1).x == GoEval(gs[0], w, final, trn).x;
  }

  lemma ConsQuiet(es: seq<Expr>, still: set<int>, gs: seq<GoExpr>, w: World, final: Temps)
    requires es != [] && gs != [] && Silent(gs[0], w, final) && SilentAll(gs[1..], w, final)
    requires Reads(es[0]) <= still ==> Quiet(gs[0], w, final)
    requires ReadsAll(es[1..]) <= still ==> QuietAll(gs[1..], w, final)
    ensures SilentAll(gs, w, final)
    ensures ReadsAll(es) <= still ==> QuietAll(gs, w, final)
  {
    SilentCons(gs, w, final);
    if ReadsAll(es) <= still { QuietCons(gs, w, final); }
  }

  /** What is known of the head of a list and, behind its preamble, of the tail. */
  ghost predicate HeadAndTail(
    es: seq<Expr>, impure: bool, still: set<int>, f: Frame, g: Gen, hoisted: map<int, int>, w: World,
    temps: Temps, tr: Trace, final: Temps)
    requires es != [] && ReadyAll(es, impure, still, f, g, hoisted, temps)
    requires Ready(es[0], impure, still, f, g, hoisted, temps)
  {
    var g1 := Hoist(es[0], f, g).value;
    var after := StrictWalk(es[0], impure).value;
    var r1 := Exec(Added(g, g1), w, temps, tr);
    && Sound(es[0], impure, still, f, g, hoisted, w, temps, tr, if r1.Val? then r1.x else map[])
    && Sound(es[0], impure, still, f, g, hoisted, w, temps, tr, final)
    && (r1.Val? ==>
          && ReadyAll(es[1..], after, still, f, g1, hoisted, r1.x)
          && SoundAll(es[1..], after, still, f, g1, hoisted, w, r1.x, r1.tr, final)
          && var head := Eval(es[0], f, w, tr);
             (after && head.Val? ==> SoundAll(es[1..], after, still, f, g1, hoisted, w, r1.x, head.tr, final)))
  }

  /** The head has an effect: the tail has no preamble. */
  lemma ConsBehindEffect(
    es: seq<Expr>, impure: bool, still: set<int>, f: Frame, g: Gen, hoisted: map<int, int>, w: World,
    temps: Temps, tr: Trace, final: Temps)
    requires es != [] && ReadyAll(es, impure, still, f, g, hoisted, temps)
    requires Ready(es[0], impure, still, f, g, hoisted, temps) && StrictWalk(es[0], impure).value
    requires HeadAndTail(es, impure, still, f, g, hoisted, w, temps, tr, final)
    ensures SoundAll(es, impure, still, f, g, hoisted, w, temps, tr, final)
  {
    ReadyCons(es, impure, still, f, g, hoisted, temps);
    var g1 := Hoist(es[0], f, g).value;
    var gn := HoistAll(es, f, g).value;
    var r1 := Exec(Added(g, g1), w, temps, tr);
    assert Added(g, gn) == Added(g, g1) + Added(g1, gn);
    ExecConcat(Added(g, g1), Added(g1, gn), w, temps, tr);
    if r1.Val? {
      assert gn == g1 && Added(g1, gn) == [];
      StrictImpliesWalkAll(es[1..], true, true);
    }
  }

  /** It has none: the head is evaluated behind the tail's preamble. */
  lemma ConsBeforeEffect(
    es: seq<Expr>, impure: bool, still: set<int>, f: Frame, g: Gen, hoisted: map<int, int>, w: World,
    temps: Temps, tr: Trace, final: Temps)
    requires es != [] && ReadyAll(es, impure, still, f, g, hoisted, temps)
    requires Ready(es[0], impure, still, f, g, hoisted, temps) && !StrictWalk(es[0], impure).value
    requires HeadAndTail(es, impure, still, f, g, hoisted, w, temps, tr, final)
    ensures SoundAll(es, impure, still, f, g, hoisted, w, temps, tr, final)
  {
    hide Quiet, Silent, QuietAll, SilentAll, Steady;
    ReadyCons(es, impure, still, f, g, hoisted, temps);
    var gs := EmitAll(es, hoisted).value;
    var g1 := Hoist(es[0], f, g).value;
    var gn := HoistAll(es, f, g).value;
    var r1 := Exec(Added(g, g1), w, temps, tr);
    assert Added(g, gn) == Added(g, g1) + Added(g1, gn);
    ExecConcat(Added(g, g1), Added(g1, gn), w, temps, tr);
    if r1.Val? {
      SilentAt(gs[0], w, r1.x, r1.tr);
      var rn := Exec(Added(g1, gn), w, r1.x, r1.tr);
      if rn.Val? && Extends(rn.x, final) {
        ExtendsThen(r1.x, rn.x, final);
        ConsValue(es, f, gs, w, final, tr, r1.tr, rn.tr);
        if !StrictWalkAll(es, impure).value { ConsQuiet(es, still, gs, w, final); }
      }
    }
  }

  // ---------------------------------------------------------------- what hoisting reaches

  /** A `try` left in place has no Go expression, so a statement whose safety walk
      fails does not lower at all. */
  lemma {:induction false} UnsafeHasTry(e: Expr, impure: bool)
    requires Walk(e, impure) == None
    ensures TrySet(e) != {}
    decreases e, 1
  {
    match e
    case Literal(_) =>
    case Read(_) =>
    case Try(_, _) =>
    case Node(_, _, operands) => UnsafeHasTryAll(operands, impure);
    case Logic(_, left, _) => UnsafeHasTry(left, impure);
    case Opaque(_) =>
  }

  lemma {:induction false} UnsafeHasTryAll(es: seq<Expr>, impure: bool)
    requires WalkAll(es, impure) == None
    ensures TrySetAll(es) != {}
    decreases es, 0
  {
    if es != [] {
      match Walk(es[0], impure)
      case None => UnsafeHasTry(es[0], impure);
      case Some(after) => UnsafeHasTryAll(es[1..], after);
    }
  }

  /** One temp, one preamble and one entry of the hoist map for each `try` in ids. */
  ghost predicate OnePerTry(g: Gen, g1: Gen, ids: set<int>) {
    && (forall k :: k in g1.tryHoist <==> k in g.tryHoist || k in ids)
    && g1.counter == g.counter + |ids|
    && |g1.out| == |g.out| + 2 * |ids|
    && ids <= g1.tryHoist.Keys && OwnTemps(g1.tryHoist, ids, g.counter, g1.counter)
  }

  /** Different nodes of ids have different temps, all in (lo, hi]. */
  ghost predicate OwnTemps(hoist: map<int, int>, ids: set<int>, lo: int, hi: int)
    requires ids <= hoist.Keys
  {
    && (forall i :: i in ids ==> lo < hoist[i] <= hi)
    && (forall i, j :: i in ids && j in ids && hoist[i] == hoist[j] ==> i == j)
  }

  lemma OwnTempsJoin(h1: map<int, int>, h2: map<int, int>, a: set<int>, b: set<int>, lo: int, mid: int, hi: int)
    requires a <= h1.Keys && b <= h2.Keys && Extends(h1, h2) && lo <= mid <= hi
    requires OwnTemps(h1, a, lo, mid) && OwnTemps(h2, b, mid, hi)
    ensures a + b <= h2.Keys && OwnTemps(h2, a + b, lo, hi)
  {
    forall i | i in a ensures i in h2 && h2[i] == h1[i] {}
  }

  lemma OwnTempsAdd(h: map<int, int>, ids: set<int>, id: int, lo: int, hi: int)
    requires ids <= h.Keys && OwnTemps(h, ids, lo, hi) && id !in ids && lo <= hi
    ensures {id} + ids <= h[id := hi + 1].Keys && OwnTemps(h[id := hi + 1], {id} + ids, lo, hi + 1)
  {
  }

  lemma Cardinality(a: set<int>, b: set<int>)
    requires a !! b
    ensures |a + b| == |a| + |b|
  {
  }

  lemma OnePerTryJoin(g: Gen, g1: Gen, g2: Gen, a: set<int>, b: set<int>)
    requires OnePerTry(g, g1, a) && OnePerTry(g1, g2, b) && Extends(g1.tryHoist, g2.tryHoist) && a !! b
    ensures OnePerTry(g, g2, a + b)
  {
    Cardinality(a, b);
    OwnTempsJoin(g1.tryHoist, g2.tryHoist, a, b, g.counter, g1.counter, g2.counter);
  }

  lemma OnePerTryAdd(g: Gen, gi: Gen, ids: set<int>, id: int, code: seq<GoStmt>)
    requires OnePerTry(g, gi, ids) && id !in ids && |code| == 2
    ensures OnePerTry(g, Gen(gi.tryHoist[id := gi.counter + 1], gi.counter + 1, gi.out + code), {id} + ids)
  {
    assert |{id} + ids| == 1 + |ids|;
    OwnTempsAdd(gi.tryHoist, ids, id, g.counter, gi.counter);
  }

  lemma {:induction false} HoistReaches(e: Expr, f: Frame, g: Gen, hoisted: map<int, int>)
    requires Distinct(e) && Untouched(TrySet(e), g.tryHoist) && Hoist(e, f, g).Some?
    requires Agrees(TrySet(e), Hoist(e, f, g).value, hoisted) && Emit(e, hoisted).Some?
    ensures OnePerTry(g, Hoist(e, f, g).value, TrySet(e))
    decreases e, 1
  {
    match e
    case Literal(_) =>
    case Read(_) =>
    case Opaque(_) =>
    case Node(_, _, operands) => HoistAllReaches(operands, f, g, hoisted);
    case Logic(_, left, right) =>
      HoistGrows(left, f, g);
      TryFreeEmit(right, f, hoisted, QuietWorld(), map[], []);
      assert TrySet(e) == TrySet(left);
      HoistReaches(left, f, g, hoisted);
    case Try(id, inner) =>
      WalkOfEmitted(inner, f, g);
      HoistGrows(inner, f, g);
      var gi := Hoist(inner, f, g).value;
      HoistReaches(inner, f, g, gi.tryHoist);
      OnePerTryAdd(g, gi, TrySet(inner), id, BailCode(gi.counter + 1, Emit(inner, gi.tryHoist).value, f));
  }

  lemma WalkOfEmitted(inner: Expr, f: Frame, g: Gen)
    requires Untouched(TrySet(inner), g.tryHoist) && Preamble(inner, f, g).Some?
    ensures Walk(inner, false).Some? && Hoist(inner, f, g).Some?
    ensures Emit(inner, Hoist(inner, f, g).value.tryHoist).Some?
  {
    if Walk(inner, false) == None {
      UnsafeHasTry(inner, false);
      TryFreeEmit(inner, f, g.tryHoist, QuietWorld(), map[], []);
      assert false;
    }
  }

  lemma {:induction false} HoistAllReaches(es: seq<Expr>, f: Frame, g: Gen, hoisted: map<int, int>)
    requires DistinctAll(es) && Untouched(TrySetAll(es), g.tryHoist) && HoistAll(es, f, g).Some?
    requires Agrees(TrySetAll(es), HoistAll(es, f, g).value, hoisted) && EmitAll(es, hoisted).Some?
    ensures OnePerTry(g, HoistAll(es, f, g).value, TrySetAll(es))
    decreases es, 0
  {
    if es != [] {
      HoistGrows(es[0], f, g);
      var g1 := Hoist(es[0], f, g).value;
      HoistAllGrows(es[1..], f, g1);
      HoistReaches(es[0], f, g, hoisted);
      HoistAllReaches(es[1..], f, g1, hoisted);
      OnePerTryJoin(g, g1, HoistAll(es, f, g).value, TrySet(es[0]), TrySetAll(es[1..]));
    }
  }

  /** A world in which everything is the same value. */
  function QuietWorld(): World {
    World(_ => Atom(0), (_, _, _) => Atom(0), (_, _) => Atom(0), (_, _) => Some(Atom(0)), (_, _, _) => Some(Atom(0)),
          (_, _, _) => Some(Atom(0)), (_, _) => true)
  }

  // ---------------------------------------------------------------- main results

  ghost predicate Unhoisted(es: seq<Expr>, g: Gen) { DistinctAll(es) && Untouched(TrySetAll(es), g.tryHoist) }

  /** Whenever a statement lowers, its safety walk passed and every `try` of it, at
      any depth, was hoisted into its own temp by its own preamble. */
  lemma LoweringHoistsEveryTryOnce(es: seq<Expr>, f: Frame, g: Gen)
    requires Unhoisted(es, g) && Lower(es, f, g).Some?
    ensures Hoistable(es)
    ensures var g1 := Lower(es, f, g).value.0;
            Grew(g, g1, TrySetAll(es)) && OnePerTry(g, g1, TrySetAll(es))
  {
    if !Hoistable(es) {
      UnsafeHasTryAll(es, false);
      TryFreeEmitAll(es, f, g.tryHoist, QuietWorld(), map[], []);
      assert false;
    }
    HoistAllGrows(es, f, g);
    HoistAllReaches(es, f, g, Lower(es, f, g).value.0.tryHoist);
  }

  /** In lexical order, a lowered statement has the same effects in the same order, the same
      panic, the same bail and the same operand values as left-to-right evaluation. */
  lemma HoistingPreservesMeaning(
    es: seq<Expr>, still: set<int>, f: Frame, g: Gen, w: World, temps: Temps, tr: Trace)
    requires Unhoisted(es, g) && Fresh(temps, g.counter) && Steady(w, still)
    requires Lower(es, f, g).Some? && StrictlyHoistable(es) && InPlaceAll(es, still)
    ensures var (g1, gs) := Lower(es, f, g).value;
            g.out <= g1.out && Run(Added(g, g1), gs, w, temps, tr) == EvalAll(es, f, w, tr)
  {
    LoweringHoistsEveryTryOnce(es, f, g);
    var (g1, gs) := Lower(es, f, g).value;
    var r := Exec(Added(g, g1), w, temps, tr);
    HoistAllSound(es, false, still, f, g, g1.tryHoist, w, temps, tr, if r.Val? then r.x else map[]);
  }

  lemma DirectTryReady(id: int, inner: Expr, still: set<int>, f: Frame, g: Gen, temps: Temps)
    requires Unhoisted([Try(id, inner)], g) && Fresh(temps, g.counter)
    requires Preamble(inner, f, g).Some? && StrictWalk(inner, false).Some? && InPlace(inner, still)
    ensures var (tmp, g1) := Preamble(inner, f, g).value;
            var g2 := g1.(tryHoist := g1.tryHoist[id := tmp]);
            && Hoist(Try(id, inner), f, g) == Some(g2) && Grew(g, g2, TrySet(Try(id, inner)))
            && Ready(Try(id, inner), false, still, f, g, g2.tryHoist, temps)
  {
    OfSingle(Try(id, inner), f, QuietWorld(), []);
    StrictImpliesWalk(inner, false, false);
    HoistGrows(Try(id, inner), f, g);
  }

  /** The same for a `try` that is the whole value of a statement, which takes the
      direct path through emitTryPreamble. */
  lemma DirectTryPreservesMeaning(
    id: int, inner: Expr, still: set<int>, f: Frame, g: Gen, w: World, temps: Temps, tr: Trace)
    requires Unhoisted([Try(id, inner)], g) && Fresh(temps, g.counter) && Steady(w, still)
    requires Preamble(inner, f, g).Some? && StrictWalk(inner, false).Some? && InPlace(inner, still)
    ensures var (tmp, g1) := Preamble(inner, f, g).value;
            && g.out <= g1.out
            && Run(Added(g, g1), [GoPayload(tmp)], w, temps, tr) == EvalAll([Try(id, inner)], f, w, tr)
  {
    hide Steady, Walk, Quiet, Silent, Ready, Eval, Distinct;
    var e := Try(id, inner);
    OfSingle(e, f, w, tr);
    var (tmp, g1) := Preamble(inner, f, g).value;
    var g2 := g1.(tryHoist := g1.tryHoist[id := tmp]);
    DirectTryReady(id, inner, still, f, g, temps);
    var r := Exec(Added(g, g2), w, temps, tr);
    HoistSound(e, false, still, f, g, g2.tryHoist, w, temps, tr, if r.Val? then r.x else map[]);
    assert Added(g, g1) == Added(g, g2);
    if r.Val? {
      var v := PayloadOf(ReadTemp(r.x, tmp));
      var gs := [GoPayload(tmp)];
      assert gs[1..] == [] && [v] + [] == [v];
      assert GoEvalAll(gs, w, r.x, r.tr) == Val([v] + [], r.tr);
    }
  }

  /** The list walks on one expression. */
  lemma OfSingle(e: Expr, f: Frame, w: World, tr: Trace)
    ensures EvalAll([e], f, w, tr) ==
            match Eval(e, f, w, tr) case Val(v, tr') => Val([v], tr') case stop => Stopped(stop)
    ensures TrySetAll([e]) == TrySet(e) && DistinctAll([e]) == Distinct(e)
    ensures forall i :: StrictWalkAll([e], i) == StrictWalk(e, i) && WalkAll([e], i) == Walk(e, i)
    ensures forall g :: HoistAll([e], f, g) == Hoist(e, f, g)
    ensures forall h :: EmitAll([e], h) == if Emit(e, h).Some? then Some([Emit(e, h).value]) else None
  {
    var es := [e];
    assert es[0] == e && es[1..] == [];
    assert EvalAll(es, f, w, tr) ==
           match Eval(e, f, w, tr)
           case Val(v, tr') => Val([v] + [], tr')
           case stop => Stopped(stop);
    assert forall v: Value :: [v] + [] == [v];
    assert forall i :: StrictWalkAll(es, i) == StrictWalk(e, i);
    assert forall i :: WalkAll(es, i) == Walk(e, i);
    forall h ensures EmitAll(es, h) == if Emit(e, h).Some? then Some([Emit(e, h).value]) else None {
      assert EmitAll(es[1..], h) == Some([]);
      if Emit(e, h).Some? { assert [Emit(e, h).value] + [] == [Emit(e, h).value]; }
    }
  }
}
