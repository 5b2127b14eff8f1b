/** Which statements lower: what the safety walk, the bail forms and emission ask together. */
module TryLowers {
  import opened Wrappers
  import opened TryHoisting
  import opened TryHoistingProofs

  // ---------------------------------------------------------------- what the safety walk means

  /** What one frame does, in evaluation order, as far as the safety walk sees it. */
  datatype Step = Effect | Attempt

  /** A call may do anything, and an index, a division and a store to an element may panic. */
  const EFFECTS: set<Kind> := {CallNode, DivideNode, IndexNode, ElementPlace}

  function Steps(e: Expr): seq<Step>
    decreases e, 1
  {
    match e
    case Literal(_) => []
    case Read(_) => []
    case Try(_, _) => [Attempt]
    case Node(_, k, operands) => StepsAll(operands) + (if k in EFFECTS then [Effect] else [])
    case Logic(_, left, _) => Steps(left)
    case Opaque(_) => [Effect]
  }

  function StepsAll(es: seq<Expr>): seq<Step>
    decreases es, 0
  {
    if es == [] then [] else Steps(es[0]) + StepsAll(es[1..])
  }

  /** No `try` comes after an effect of the same frame. */
  predicate Ordered(ss: seq<Step>) {
    forall i, j :: 0 <= i < j < |ss| && ss[i].Effect? ==> ss[j].Effect?
  }

  /** The same inside every `try`, whose operand is a frame of its own. */
  predicate NestedOrdered(e: Expr)
    decreases e, 1
  {
    match e
    case Literal(_) => true
    case Read(_) => true
    case Try(_, inner) => Ordered(Steps(inner)) && NestedOrdered(inner)
    case Node(_, _, operands) => NestedOrderedAll(operands)
    case Logic(_, left, _) => NestedOrdered(left)
    case Opaque(_) => true
  }

  predicate NestedOrderedAll(es: seq<Expr>)
    decreases es, 0
  {
    es != [] ==> NestedOrdered(es[0]) && NestedOrderedAll(es[1..])
  }

  lemma OrderedConcat(a: seq<Step>, b: seq<Step>)
    ensures Ordered(a + b) <==> Ordered(a) && Ordered(b) && (Effect in a ==> Attempt !in b)
  {
    var c := a + b;
    if Ordered(c) {
      forall i, j | 0 <= i < j < |a| && a[i].Effect? ensures a[j].Effect? { assert c[i] == a[i] && c[j] == a[j]; }
      forall i, j | 0 <= i < j < |b| && b[i].Effect? ensures b[j].Effect? {
        assert c[|a| + i] == b[i] && c[|a| + j] == b[j];
      }
      forall i, j | 0 <= i < |a| && a[i].Effect? && 0 <= j < |b| ensures b[j].Effect? {
        assert c[i] == a[i] && c[|a| + j] == b[j];
      }
    }
  }

  /** The walk passes exactly the frames that are ordered, at every depth. */
  lemma {:induction false} WalkMeaning(e: Expr, impure: bool)
    ensures Walk(e, impure).Some? <==>
            NestedOrdered(e) && Ordered(Steps(e)) && (impure ==> Attempt !in Steps(e))
    ensures Walk(e, impure).Some? ==> Walk(e, impure).value == (impure || Effect in Steps(e))
    decreases e, 1
  {
    match e
    case Literal(_) =>
    case Read(_) =>
    case Try(_, inner) => WalkMeaning(inner, false);
    case Node(_, k, operands) =>
      WalkAllMeaning(operands, impure);
      OrderedConcat(StepsAll(operands), if k in EFFECTS then [Effect] else []);
    case Logic(_, left, _) => WalkMeaning(left, impure);
    case Opaque(_) =>
  }

  lemma {:induction false} WalkAllMeaning(es: seq<Expr>, impure: bool)
    ensures WalkAll(es, impure).Some? <==>
            NestedOrderedAll(es) && Ordered(StepsAll(es)) && (impure ==> Attempt !in StepsAll(es))
    ensures WalkAll(es, impure).Some? ==> WalkAll(es, impure).value == (impure || Effect in StepsAll(es))
    decreases es, 0
  {
    if es != [] {
      OrderedConcat(Steps(es[0]), StepsAll(es[1..]));
      WalkMeaning(es[0], impure);
      if Walk(es[0], impure).Some? { WalkAllMeaning(es[1..], Walk(es[0], impure).value); }
      WalkAllMeaning(es[1..], impure);
    }
  }

  // ---------------------------------------------------------------- what lowers

  /** No `try` stands in the right operand of `&&` or `||`. */
  predicate NoneOnRight(e: Expr)
    decreases e, 1
  {
    match e
    case Try(_, inner) => NoneOnRight(inner)
    case Node(_, _, operands) => NoneOnRightAll(operands)
    case Logic(_, left, right) => NoneOnRight(left) && TrySet(right) == {}
    case _ => true
  }

  predicate NoneOnRightAll(es: seq<Expr>)
    decreases es, 0
  {
    es != [] ==> NoneOnRight(es[0]) && NoneOnRightAll(es[1..])
  }

  /** The frames that `try` may leave: the body of a spawn, and of a function that returns a
      Result or an Option. */
  predicate CanBail(f: Frame) { f in {SpawnBody, FuncBody(ResultReturn), FuncBody(OptionReturn)} }

  /** What lowers in place of e and of the `try`s inside it. */
  predicate Lowerable(e: Expr, f: Frame) {
    && Ordered(Steps(e)) && NestedOrdered(e) && NoneOnRight(e)
    && (TrySet(e) != {} ==> CanBail(f))
  }

  predicate LowerableAll(es: seq<Expr>, f: Frame) {
    && Ordered(StepsAll(es)) && NestedOrderedAll(es) && NoneOnRightAll(es)
    && (TrySetAll(es) != {} ==> CanBail(f))
  }

  // ---------------------------------------------------------------- it does

  lemma {:induction false} EmitsHoisted(e: Expr, hoisted: map<int, int>)
    requires forall k :: k in TrySet(e) ==> k in hoisted
    ensures Emit(e, hoisted).Some?
    decreases e, 1
  {
    match e
    case Node(_, _, operands) => EmitsAllHoisted(operands, hoisted);
    case Logic(_, left, right) => EmitsHoisted(left, hoisted); EmitsHoisted(right, hoisted);
    case _ =>
  }

  lemma {:induction false} EmitsAllHoisted(es: seq<Expr>, hoisted: map<int, int>)
    requires forall k :: k in TrySetAll(es) ==> k in hoisted
    ensures EmitAll(es, hoisted).Some?
    decreases es, 0
  {
    if es != [] { EmitsHoisted(es[0], hoisted); EmitsAllHoisted(es[1..], hoisted); }
  }

  /** g1 has an entry for everything in g and in ids. */
  ghost predicate Reaches(g: Gen, g1: Gen, ids: set<int>) {
    forall k :: k in g.tryHoist || k in ids ==> k in g1.tryHoist
  }

  lemma {:induction false} HoistsFitting(e: Expr, f: Frame, g: Gen)
    requires NestedOrdered(e) && NoneOnRight(e) && (TrySet(e) != {} ==> CanBail(f))
    ensures Hoist(e, f, g).Some? && Reaches(g, Hoist(e, f, g).value, TrySet(e))
    decreases e, 1
  {
    match e
    case Try(id, inner) =>
      assert id in TrySet(e);
      PreambleFitting(inner, f, g);
    case Node(_, _, operands) => HoistsAllFitting(operands, f, g);
    case Logic(_, left, right) => HoistsFitting(left, f, g);
    case _ =>
  }

  lemma {:induction false} PreambleFitting(inner: Expr, f: Frame, g: Gen)
    requires Ordered(Steps(inner)) && NestedOrdered(inner) && NoneOnRight(inner) && CanBail(f)
    ensures Preamble(inner, f, g).Some? && Reaches(g, Preamble(inner, f, g).value.1, TrySet(inner))
    decreases inner, 2
  {
    WalkMeaning(inner, false);
    HoistsFitting(inner, f, g);
    EmitsHoisted(inner, Hoist(inner, f, g).value.tryHoist);
  }

  lemma {:induction false} HoistsAllFitting(es: seq<Expr>, f: Frame, g: Gen)
    requires NestedOrderedAll(es) && NoneOnRightAll(es) && (TrySetAll(es) != {} ==> CanBail(f))
    ensures HoistAll(es, f, g).Some? && Reaches(g, HoistAll(es, f, g).value, TrySetAll(es))
    decreases es, 0
  {
    if es != [] {
      assert TrySet(es[0]) <= TrySetAll(es) && TrySetAll(es[1..]) <= TrySetAll(es);
      HoistsFitting(es[0], f, g);
      HoistsAllFitting(es[1..], f, Hoist(es[0], f, g).value);
    }
  }

  // ---------------------------------------------------------------- nothing else does

  lemma {:induction false} LoweredFits(e: Expr, f: Frame, g: Gen, hoisted: map<int, int>)
    requires Distinct(e) && Untouched(TrySet(e), g.tryHoist) && Hoist(e, f, g).Some?
    requires Agrees(TrySet(e), Hoist(e, f, g).value, hoisted) && Emit(e, hoisted).Some?
    ensures NoneOnRight(e) && (TrySet(e) != {} ==> CanBail(f))
    decreases e, 1
  {
    match e
    case Try(_, inner) => PreambleFits(inner, f, g);
    case Node(_, _, operands) => LoweredAllFit(operands, f, g, hoisted);
    case Logic(_, left, right) =>
      HoistGrows(left, f, g);
      TryFreeEmit(right, f, hoisted, QuietWorld(), map[], []);
      assert TrySet(e) == TrySet(left);
      LoweredFits(left, f, g, hoisted);
    case _ =>
  }

  lemma {:induction false} PreambleFits(inner: Expr, f: Frame, g: Gen)
    requires Distinct(inner) && Untouched(TrySet(inner), g.tryHoist) && Preamble(inner, f, g).Some?
    ensures Ordered(Steps(inner)) && NestedOrdered(inner) && NoneOnRight(inner) && CanBail(f)
    decreases inner, 2
  {
    WalkOfEmitted(inner, f, g);
    WalkMeaning(inner, false);
    HoistGrows(inner, f, g);
    LoweredFits(inner, f, g, Hoist(inner, f, g).value.tryHoist);
  }

  lemma {:induction false} LoweredAllFit(es: seq<Expr>, f: Frame, g: Gen, hoisted: map<int, int>)
    requires DistinctAll(es) && Untouched(TrySetAll(es), g.tryHoist) && HoistAll(es, f, g).Some?
    requires Agrees(TrySetAll(es), HoistAll(es, f, g).value, hoisted) && EmitAll(es, hoisted).Some?
    ensures NoneOnRightAll(es) && (TrySetAll(es) != {} ==> CanBail(f))
    decreases es, 0
  {
    if es != [] {
      HoistGrows(es[0], f, g);
      var g1 := Hoist(es[0], f, g).value;
      HoistAllGrows(es[1..], f, g1);
      LoweredFits(es[0], f, g, hoisted);
      LoweredAllFit(es[1..], f, g1, hoisted);
    }
  }

  // ---------------------------------------------------------------- exactly

  /** A statement lowers if and only if no effect precedes a `try` in any of its frames, no `try`
      stands in the right operand of `&&` or `||`, and the function, if there is any `try`, is one
      that `try` may leave. */
  lemma LowersExactly(es: seq<Expr>, f: Frame, g: Gen)
    requires Unhoisted(es, g)
    ensures Lower(es, f, g).Some? <==>
            && Ordered(StepsAll(es)) && NestedOrderedAll(es) && NoneOnRightAll(es)
            && (TrySetAll(es) != {} ==> f in {SpawnBody, FuncBody(ResultReturn), FuncBody(OptionReturn)})
  {
    WalkAllMeaning(es, false);
    if LowerableAll(es, f) {
      HoistsAllFitting(es, f, g);
      EmitsAllHoisted(es, HoistAll(es, f, g).value.tryHoist);
    }
    if Lower(es, f, g).Some? {
      LoweringHoistsEveryTryOnce(es, f, g);
      LoweredAllFit(es, f, g, HoistAll(es, f, g).value.tryHoist);
    }
  }

  /** The same for a `try` that is the whole value of a statement. */
  lemma DirectTryLowersExactly(inner: Expr, f: Frame, g: Gen)
    requires Distinct(inner) && Untouched(TrySet(inner), g.tryHoist)
    ensures Preamble(inner, f, g).Some? <==>
            && Ordered(Steps(inner)) && NestedOrdered(inner) && NoneOnRight(inner)
            && f in {SpawnBody, FuncBody(ResultReturn), FuncBody(OptionReturn)}
  {
    if Preamble(inner, f, g).Some? {
      PreambleFits(inner, f, g);
    } else if Lowerable(inner, f) && CanBail(f) {
      PreambleFitting(inner, f, g);
    }
  }

  /** The bail that is written last: tag 1 and the error for a Result, tag 0 for an Option, the bare error
      in a spawn body. */
  predicate EndsInBail(out: seq<GoStmt>, tmp: int, f: Frame) {
    && out != []
    && match f
       case SpawnBody => out[|out| - 1] == BailIf(tmp, 1, RawError)
       case FuncBody(ResultReturn) => out[|out| - 1] == BailIf(tmp, 1, WrapError(1))
       case FuncBody(OptionReturn) => out[|out| - 1] == BailIf(tmp, 0, WrapNone(0))
       case FuncBody(_) => false
  }

  lemma PreambleEndsInBail(inner: Expr, f: Frame, g: Gen)
    requires Preamble(inner, f, g).Some?
    ensures EndsInBail(Preamble(inner, f, g).value.1.out, Preamble(inner, f, g).value.0, f)
  {
    hide Hoist, Emit, Walk;
  }
}
