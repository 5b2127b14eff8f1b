/** Where nothing can change places that matters, every schedule runs as the lexical order does. */
module GoOrderProofs {
  import opened Wrappers
  import opened TryHoisting
  import opened TryHoistingProofs
  import opened GoOrder

  // ---------------------------------------------------------------- nodes

  /** The nodes of e that have a moment. */
  function Moments(e: GoExpr): set<int>
    decreases e, 1
  {
    match e
    case GoRead(id) => {id}
    case GoNode(id, k, operands) => MomentsAll(operands) + if Timed(k) then {id} else {}
    case GoLogic(id, left, right) => {id} + Moments(left) + Moments(right)
    case GoOpaque(id) => {id}
    case _ => {}
  }

  function MomentsAll(es: seq<GoExpr>): set<int>
    decreases es, 0
  {
    if es == [] then {} else Moments(es[0]) + MomentsAll(es[1..])
  }

  /** No node occurs twice. */
  predicate Tree(e: GoExpr)
    decreases e, 1
  {
    match e
    case GoNode(id, k, operands) => id !in MomentsAll(operands) && TreeAll(operands)
    case GoLogic(id, left, right) =>
      && id !in Moments(left) && id !in Moments(right)
      && Moments(left) !! Moments(right) && Tree(left) && Tree(right)
    case _ => true
  }

  predicate TreeAll(es: seq<GoExpr>)
    decreases es, 0
  {
    es != [] ==> Moments(es[0]) !! MomentsAll(es[1..]) && Tree(es[0]) && TreeAll(es[1..])
  }

  ghost predicate NoneOf(ids: set<int>, m: Done) { forall i :: i in ids ==> i !in m }

  ghost predicate Same(ids: set<int>, m: Done, m': Done) {
    forall i :: i in ids ==> (i in m <==> i in m') && (i in m ==> m[i] == m'[i])
  }

  lemma {:induction false} OrdersAreMoments(e: GoExpr)
    ensures Orders(e) <= Moments(e) && Calls(e) <= Orders(e) && Fails(e) <= Moments(e)
    decreases e, 1
  {
    match e
    case GoNode(_, _, operands) => AllOrdersAreMoments(operands);
    case GoLogic(_, left, right) => OrdersAreMoments(left); OrdersAreMoments(right);
    case _ =>
  }

  lemma {:induction false} AllOrdersAreMoments(es: seq<GoExpr>)
    ensures OrdersAll(es) <= MomentsAll(es) && CallsAll(es) <= OrdersAll(es) && FailsAll(es) <= MomentsAll(es)
    decreases es, 0
  {
    if es != [] { OrdersAreMoments(es[0]); AllOrdersAreMoments(es[1..]); }
  }

  // ---------------------------------------------------------------- what has been reached

  /** tr and the calls of e that have happened, in lexical order. */
  function Reached(e: GoExpr, c: Context, m: Done, tr: Trace): Trace
    decreases e, 1
  {
    match e
    case GoNode(id, k, operands) =>
      var tr' := ReachedAll(operands, c, m, tr);
      if k.CallNode? && id in m then tr' + [Event(id, ValuesOf(operands, c, m))] else tr'
    case GoLogic(id, left, right) =>
      var tr' := Reached(left, c, m, tr);
      if id in m && c.w.enters(id, ValueOf(left, c, m)) then Reached(right, c, m, tr') else tr'
    case GoOpaque(id) => if id in m then tr + [Event(id, [])] else tr
    case _ => tr
  }

  function ReachedAll(es: seq<GoExpr>, c: Context, m: Done, tr: Trace): Trace
    decreases es, 0
  {
    if es == [] then tr else ReachedAll(es[1..], c, m, Reached(es[0], c, m, tr))
  }

  function InOrder(e: GoExpr, c: Context, tr: Trace): Out<Value> { GoEval(e, c.w, c.temps, tr) }
  function InOrderAll(es: seq<GoExpr>, c: Context, tr: Trace): Out<seq<Value>> { GoEvalAll(es, c.w, c.temps, tr) }

  /** A node that has happened had its operands, a conditional operand was entered, and calls and
      logical operations happened in lexical order. */
  ghost predicate Closed(e: GoExpr, c: Context, m: Done)
    decreases e, 1
  {
    match e
    case GoNode(id, k, operands) => ClosedAll(operands, c, m) && (Timed(k) && id in m ==> HasAll(operands, c, m))
    case GoLogic(id, left, right) =>
      && Closed(left, c, m) && Closed(right, c, m)
      && (id in m ==> Has(left, c, m))
      && (!(id in m && c.w.enters(id, ValueOf(left, c, m))) ==> NoneOf(Moments(right), m))
    case _ => true
  }

  ghost predicate ClosedAll(es: seq<GoExpr>, c: Context, m: Done)
    decreases es, 0
  {
    es != [] ==>
      && Closed(es[0], c, m) && ClosedAll(es[1..], c, m)
      && (!Complete(es[0], c, m) ==> NoneOf(OrdersAll(es[1..]), m))
  }

  /** What has happened of e happened as it does in lexical order from tr. */
  ghost predicate Agrees(e: GoExpr, c: Context, m: Done, tr: Trace)
    decreases e, 1
  {
    match e
    case GoRead(id) => id in m ==> m[id] == c.w.read(id, [], tr)
    case GoNode(id, k, operands) =>
      && AgreesAll(operands, c, m, tr)
      && (Timed(k) && id in m ==>
            var o := Finish(id, k, ValuesOf(operands, c, m), c.w, ReachedAll(operands, c, m, tr));
            o.Val? && o.x == m[id])
    case GoLogic(id, left, right) =>
      && Agrees(left, c, m, tr)
      && (id in m && c.w.enters(id, ValueOf(left, c, m)) ==> Agrees(right, c, m, Reached(left, c, m, tr)))
    case GoOpaque(id) => id in m ==> var o := Act(id, [], c.w, tr); o.Val? && o.x == m[id]
    case _ => true
  }

  ghost predicate AgreesAll(es: seq<GoExpr>, c: Context, m: Done, tr: Trace)
    decreases es, 0
  {
    es != [] ==>
      && Agrees(es[0], c, m, tr)
      && (InOrder(es[0], c, tr).Val? ==> AgreesAll(es[1..], c, m, InOrder(es[0], c, tr).tr))
  }

  // ---------------------------------------------------------------- frames

  /** Only the nodes of e matter to e. */
  lemma {:induction false} Local(e: GoExpr, c: Context, m: Done, m': Done)
    requires Same(Moments(e), m, m')
    ensures Has(e, c, m) == Has(e, c, m') && ValueOf(e, c, m) == ValueOf(e, c, m') && Complete(e, c, m) == Complete(e, c, m')
    decreases e, 1
  {
    match e
    case GoNode(_, _, operands) => LocalAll(operands, c, m, m');
    case GoLogic(_, left, right) => Local(left, c, m, m'); Local(right, c, m, m');
    case _ =>
  }

  lemma {:induction false} LocalAll(es: seq<GoExpr>, c: Context, m: Done, m': Done)
    requires Same(MomentsAll(es), m, m')
    ensures HasAll(es, c, m) == HasAll(es, c, m') && ValuesOf(es, c, m) == ValuesOf(es, c, m')
    ensures CompleteAll(es, c, m) == CompleteAll(es, c, m')
    decreases es, 0
  {
    if es != [] { Local(es[0], c, m, m'); LocalAll(es[1..], c, m, m'); }
  }

  lemma {:induction false} ReachedLocal(e: GoExpr, c: Context, m: Done, m': Done, tr: Trace)
    requires Same(Moments(e), m, m')
    ensures Reached(e, c, m, tr) == Reached(e, c, m', tr)
    decreases e, 1
  {
    match e
    case GoNode(_, _, operands) =>
      LocalAll(operands, c, m, m');
      ReachedAllLocal(operands, c, m, m', tr);
    case GoLogic(_, left, right) =>
      Local(left, c, m, m');
      ReachedLocal(left, c, m, m', tr);
      ReachedLocal(right, c, m, m', Reached(left, c, m, tr));
    case _ =>
  }

  lemma {:induction false} ReachedAllLocal(es: seq<GoExpr>, c: Context, m: Done, m': Done, tr: Trace)
    requires Same(MomentsAll(es), m, m')
    ensures ReachedAll(es, c, m, tr) == ReachedAll(es, c, m', tr)
    decreases es, 0
  {
    if es != [] {
      ReachedLocal(es[0], c, m, m', tr);
      ReachedAllLocal(es[1..], c, m, m', Reached(es[0], c, m, tr));
    }
  }

  lemma {:induction false} AgreesLocal(e: GoExpr, c: Context, m: Done, m': Done, tr: Trace)
    requires Same(Moments(e), m, m') && Agrees(e, c, m, tr)
    ensures Agrees(e, c, m', tr)
    decreases e, 1
  {
    match e
    case GoNode(_, _, operands) =>
      LocalAll(operands, c, m, m');
      ReachedAllLocal(operands, c, m, m', tr);
      AgreesAllLocal(operands, c, m, m', tr);
    case GoLogic(id, left, right) =>
      Local(left, c, m, m');
      ReachedLocal(left, c, m, m', tr);
      AgreesLocal(left, c, m, m', tr);
      if id in m && c.w.enters(id, ValueOf(left, c, m)) { AgreesLocal(right, c, m, m', Reached(left, c, m, tr)); }
    case _ =>
  }

  lemma {:induction false} AgreesAllLocal(es: seq<GoExpr>, c: Context, m: Done, m': Done, tr: Trace)
    requires Same(MomentsAll(es), m, m') && AgreesAll(es, c, m, tr)
    ensures AgreesAll(es, c, m', tr)
    decreases es, 0
  {
    if es != [] {
      Local(es[0], c, m, m');
      AgreesLocal(es[0], c, m, m', tr);
      if InOrder(es[0], c, tr).Val? { AgreesAllLocal(es[1..], c, m, m', InOrder(es[0], c, tr).tr); }
    }
  }

  /** What is there stays. */
  lemma {:induction false} Stays(e: GoExpr, c: Context, m: Done, m': Done)
    requires Extends(m, m')
    ensures Has(e, c, m) ==> Has(e, c, m') && ValueOf(e, c, m) == ValueOf(e, c, m')
    ensures Complete(e, c, m) ==> Complete(e, c, m')
    decreases e, 1
  {
    match e
    case GoNode(_, _, operands) => AllStay(operands, c, m, m');
    case GoLogic(_, left, right) => Stays(left, c, m, m'); Stays(right, c, m, m');
    case _ =>
  }

  lemma {:induction false} AllStay(es: seq<GoExpr>, c: Context, m: Done, m': Done)
    requires Extends(m, m')
    ensures HasAll(es, c, m) ==> HasAll(es, c, m') && ValuesOf(es, c, m) == ValuesOf(es, c, m')
    ensures CompleteAll(es, c, m) ==> CompleteAll(es, c, m')
    decreases es, 0
  {
    if es != [] { Stays(es[0], c, m, m'); AllStay(es[1..], c, m, m'); }
  }

  // ---------------------------------------------------------------- what is over

  /** What has its value has the value of the lexical order. */
  lemma {:induction false} HasIsInOrder(e: GoExpr, c: Context, m: Done, tr: Trace)
    requires Closed(e, c, m) && Agrees(e, c, m, tr) && Has(e, c, m)
    ensures InOrder(e, c, tr) == Val(ValueOf(e, c, m), Reached(e, c, m, tr)) && Complete(e, c, m)
    decreases e, 1
  {
    match e
    case GoNode(_, _, operands) => AllInOrder(operands, c, m, tr);
    case GoLogic(id, left, right) =>
      HasIsInOrder(left, c, m, tr);
      if c.w.enters(id, ValueOf(left, c, m)) { HasIsInOrder(right, c, m, Reached(left, c, m, tr)); }
    case _ =>
  }

  lemma {:induction false} AllInOrder(es: seq<GoExpr>, c: Context, m: Done, tr: Trace)
    requires ClosedAll(es, c, m) && AgreesAll(es, c, m, tr) && HasAll(es, c, m)
    ensures InOrderAll(es, c, tr) == Val(ValuesOf(es, c, m), ReachedAll(es, c, m, tr)) && CompleteAll(es, c, m)
    decreases es, 0
  {
    if es != [] {
      HasIsInOrder(es[0], c, m, tr);
      AllInOrder(es[1..], c, m, Reached(es[0], c, m, tr));
    }
  }

  /** Behind the last call the history is that of the lexical order. */
  lemma {:induction false} CompleteIsInOrder(e: GoExpr, c: Context, m: Done, tr: Trace)
    requires Closed(e, c, m) && Agrees(e, c, m, tr) && Complete(e, c, m) && InOrder(e, c, tr).Val?
    ensures InOrder(e, c, tr).tr == Reached(e, c, m, tr)
    decreases e, 1
  {
    match e
    case GoNode(id, k, operands) =>
      if k.CallNode? { AllInOrder(operands, c, m, tr); } else { AllCompleteInOrder(operands, c, m, tr); }
    case GoLogic(_, _, _) => HasIsInOrder(e, c, m, tr);
    case _ =>
  }

  lemma {:induction false} AllCompleteInOrder(es: seq<GoExpr>, c: Context, m: Done, tr: Trace)
    requires ClosedAll(es, c, m) && AgreesAll(es, c, m, tr) && CompleteAll(es, c, m) && InOrderAll(es, c, tr).Val?
    ensures InOrderAll(es, c, tr).tr == ReachedAll(es, c, m, tr)
    decreases es, 0
  {
    if es != [] {
      CompleteIsInOrder(es[0], c, m, tr);
      AllCompleteInOrder(es[1..], c, m, InOrder(es[0], c, tr).tr);
    }
  }

  lemma {:induction false} NoOrders(e: GoExpr, c: Context, m: Done, tr: Trace)
    requires NoneOf(Orders(e), m)
    ensures Reached(e, c, m, tr) == tr
    decreases e, 1
  {
    match e
    case GoNode(id, k, operands) =>
      AllNoOrders(operands, c, m, tr);
      assert k.CallNode? ==> id in Orders(e);
    case GoLogic(id, left, _) =>
      NoOrders(left, c, m, tr);
      assert id in Orders(e);
    case GoOpaque(id) => assert id in Orders(e);
    case _ =>
  }

  lemma {:induction false} AllNoOrders(es: seq<GoExpr>, c: Context, m: Done, tr: Trace)
    requires NoneOf(OrdersAll(es), m)
    ensures ReachedAll(es, c, m, tr) == tr
    decreases es, 0
  {
    if es != [] { NoOrders(es[0], c, m, tr); AllNoOrders(es[1..], c, m, tr); }
  }

  /** Without a call nothing is added to the history. */
  lemma {:induction false} NoCalls(e: GoExpr, c: Context, m: Done, tr: Trace)
    requires Calls(e) == {}
    ensures Reached(e, c, m, tr) == tr && InOrder(e, c, tr).tr == tr
    ensures Fails(e) == {} ==> InOrder(e, c, tr).Val?
    decreases e, 1
  {
    match e
    case GoNode(id, k, operands) =>
      AllNoCalls(operands, c, m, tr);
    case GoLogic(_, left, right) => NoCalls(left, c, m, tr); NoCalls(right, c, m, tr);
    case _ =>
  }

  lemma {:induction false} AllNoCalls(es: seq<GoExpr>, c: Context, m: Done, tr: Trace)
    requires CallsAll(es) == {}
    ensures ReachedAll(es, c, m, tr) == tr && InOrderAll(es, c, tr).tr == tr
    ensures FailsAll(es) == {} ==> InOrderAll(es, c, tr).Val?
    decreases es, 0
  {
    if es != [] { NoCalls(es[0], c, m, tr); AllNoCalls(es[1..], c, m, tr); }
  }

  /** Behind the last call, only a late node can still panic. */
  lemma {:induction false} CompleteIsSafe(e: GoExpr, c: Context, m: Done, tr: Trace)
    requires Closed(e, c, m) && Agrees(e, c, m, tr) && Complete(e, c, m) && Late(e, true) == {}
    ensures InOrder(e, c, tr).Val?
    decreases e, 1
  {
    match e
    case GoNode(id, k, operands) =>
      if k.CallNode? {
        AllInOrder(operands, c, m, tr);
      } else {
        assert MayFail(k) ==> id in Late(e, true);
        AllCompleteSafe(operands, c, m, tr);
      }
    case GoLogic(_, _, _) => HasIsInOrder(e, c, m, tr);
    case _ =>
  }

  lemma {:induction false} AllCompleteSafe(es: seq<GoExpr>, c: Context, m: Done, tr: Trace)
    requires ClosedAll(es, c, m) && AgreesAll(es, c, m, tr) && CompleteAll(es, c, m) && LateAll(es, true) == {}
    ensures InOrderAll(es, c, tr).Val?
    decreases es, 0
  {
    if es != [] {
      CompleteIsSafe(es[0], c, m, tr);
      AllCompleteSafe(es[1..], c, m, InOrder(es[0], c, tr).tr);
    }
  }

  // ---------------------------------------------------------------- what can happen

  /** What has its value has nothing left to do. */
  lemma {:induction false} NothingLeft(e: GoExpr, n: int, ok: bool, c: Context, m: Done, tr: Trace)
    requires Closed(e, c, m) && Has(e, c, m)
    ensures Fire(e, n, ok, c, m, tr) == None
    decreases e, 1
  {
    match e
    case GoNode(_, _, operands) => NothingLeftAll(operands, n, ok, c, m, tr);
    case GoLogic(id, left, right) =>
      NothingLeft(left, n, ok, c, m, tr);
      if c.w.enters(id, ValueOf(left, c, m)) { NothingLeft(right, n, ok, c, m, tr); }
    case _ =>
  }

  lemma {:induction false} NothingLeftAll(es: seq<GoExpr>, n: int, ok: bool, c: Context, m: Done, tr: Trace)
    requires ClosedAll(es, c, m) && HasAll(es, c, m)
    ensures FireAll(es, n, ok, c, m, tr) == None
    decreases es, 0
  {
    if es != [] {
      NothingLeft(es[0], n, ok, c, m, tr);
      NothingLeftAll(es[1..], n, ok && Complete(es[0], c, m), c, m, tr);
    }
  }

  lemma {:induction false} FiresOnce(e: GoExpr, n: int, ok: bool, c: Context, m: Done, tr: Trace)
    requires Fire(e, n, ok, c, m, tr).Some? && Tree(e)
    ensures n !in m && n in Moments(e) && (n in Orders(e) ==> ok)
    ensures var o := Fire(e, n, ok, c, m, tr).value;
            && !o.Bail?
            && (n !in Calls(e) ==> o.tr == tr)
            && (o.Panic? ==> o.id == n && (n in Calls(e) || n in Fails(e)))
    decreases e, 1
  {
    match e
    case GoNode(id, k, operands) =>
      AllOrdersAreMoments(operands);
      if !(n == id && Timed(k)) { FiresOnceAll(operands, n, ok, c, m, tr); }
    case GoLogic(id, left, right) =>
      OrdersAreMoments(left);
      OrdersAreMoments(right);
      if n != id {
        if Fire(left, n, ok, c, m, tr).Some? { FiresOnce(left, n, ok, c, m, tr); } else { FiresOnce(right, n, ok, c, m, tr); }
      }
    case _ =>
  }

  lemma {:induction false} FiresOnceAll(es: seq<GoExpr>, n: int, ok: bool, c: Context, m: Done, tr: Trace)
    requires FireAll(es, n, ok, c, m, tr).Some? && TreeAll(es)
    ensures n !in m && n in MomentsAll(es) && (n in OrdersAll(es) ==> ok)
    ensures var o := FireAll(es, n, ok, c, m, tr).value;
            && !o.Bail?
            && (n !in CallsAll(es) ==> o.tr == tr)
            && (o.Panic? ==> o.id == n && (n in CallsAll(es) || n in FailsAll(es)))
    decreases es, 0
  {
    OrdersAreMoments(es[0]);
    AllOrdersAreMoments(es[1..]);
    if Fire(es[0], n, ok, c, m, tr).Some? {
      FiresOnce(es[0], n, ok, c, m, tr);
    } else {
      FiresOnceAll(es[1..], n, ok && Complete(es[0], c, m), c, m, tr);
    }
  }

  /** What happens behind the last call and logical operation of e is late. */
  lemma {:induction false} LeftIsLate(e: GoExpr, n: int, ok: bool, c: Context, m: Done, tr: Trace)
    requires Closed(e, c, m) && Complete(e, c, m) && Fire(e, n, ok, c, m, tr).Some? && Tree(e)
    ensures n !in Orders(e) && n in Late(e, n in Fails(e))
    decreases e, 1
  {
    match e
    case GoNode(id, k, operands) =>
      AllOrdersAreMoments(operands);
      if n == id && Timed(k) {
      } else {
        if k.CallNode? { NothingLeftAll(operands, n, ok, c, m, tr); } else { LeftAreLate(operands, n, ok, c, m, tr); }
        FiresOnceAll(operands, n, ok, c, m, tr);
      }
    case GoLogic(_, _, _) => NothingLeft(e, n, ok, c, m, tr);
    case _ =>
  }

  lemma {:induction false} LeftAreLate(es: seq<GoExpr>, n: int, ok: bool, c: Context, m: Done, tr: Trace)
    requires ClosedAll(es, c, m) && CompleteAll(es, c, m) && FireAll(es, n, ok, c, m, tr).Some? && TreeAll(es)
    ensures n !in OrdersAll(es) && n in LateAll(es, n in FailsAll(es))
    decreases es, 0
  {
    OrdersAreMoments(es[0]);
    AllOrdersAreMoments(es[1..]);
    if Fire(es[0], n, ok, c, m, tr).Some? {
      FiresOnce(es[0], n, ok, c, m, tr);
      LeftIsLate(es[0], n, ok, c, m, tr);
    } else {
      FiresOnceAll(es[1..], n, ok, c, m, tr);
      LeftAreLate(es[1..], n, ok, c, m, tr);
    }
  }

  /** What has its value has its calls and logical operations behind it. */
  lemma {:induction false} HasNoOrders(e: GoExpr, c: Context, m: Done)
    requires Closed(e, c, m) && Has(e, c, m) && NoneOf(Orders(e), m)
    ensures Orders(e) == {}
    decreases e, 1
  {
    match e
    case GoNode(id, k, operands) =>
      assert k.CallNode? ==> id in Orders(e);
      HaveNoOrders(operands, c, m);
    case _ =>
  }

  lemma {:induction false} HaveNoOrders(es: seq<GoExpr>, c: Context, m: Done)
    requires ClosedAll(es, c, m) && HasAll(es, c, m) && NoneOf(OrdersAll(es), m)
    ensures OrdersAll(es) == {}
    decreases es, 0
  {
    if es != [] { HasNoOrders(es[0], c, m); HaveNoOrders(es[1..], c, m); }
  }

  /** What happens before the calls and logical operations in front of e are over is early. */
  lemma {:induction false} SoonIsEarly(e: GoExpr, n: int, c: Context, m: Done, tr: Trace)
    requires Closed(e, c, m) && NoneOf(Orders(e), m) && Fire(e, n, false, c, m, tr).Some? && Tree(e)
    ensures n in Early(e, n in Fails(e))
    decreases e, 1
  {
    match e
    case GoNode(id, k, operands) =>
      AllOrdersAreMoments(operands);
      if n == id && Timed(k) {
        HaveNoOrders(operands, c, m);
      } else {
        FiresOnceAll(operands, n, false, c, m, tr);
        SoonAreEarly(operands, n, c, m, tr);
      }
    case GoLogic(id, left, right) =>
      assert id in Orders(e);
      OrdersAreMoments(right);
      FiresOnce(left, n, false, c, m, tr);
      SoonIsEarly(left, n, c, m, tr);
    case _ =>
  }

  lemma {:induction false} SoonAreEarly(es: seq<GoExpr>, n: int, c: Context, m: Done, tr: Trace)
    requires ClosedAll(es, c, m) && NoneOf(OrdersAll(es), m) && FireAll(es, n, false, c, m, tr).Some? && TreeAll(es)
    ensures n in EarlyAll(es, n in FailsAll(es))
    decreases es, 0
  {
    OrdersAreMoments(es[0]);
    AllOrdersAreMoments(es[1..]);
    if Fire(es[0], n, false, c, m, tr).Some? {
      FiresOnce(es[0], n, false, c, m, tr);
      SoonIsEarly(es[0], n, c, m, tr);
    } else {
      FiresOnceAll(es[1..], n, false, c, m, tr);
      SoonAreEarly(es[1..], n, c, m, tr);
    }
  }

  // ---------------------------------------------------------------- one step

  lemma {:induction false} StepKeepsClosed(e: GoExpr, n: int, v: Value, ok: bool, c: Context, m: Done, tr: Trace)
    requires Closed(e, c, m) && Tree(e) && Fire(e, n, ok, c, m, tr).Some?
    ensures Closed(e, c, m[n := v])
    decreases e, 1
  {
    var m' := m[n := v];
    FiresOnce(e, n, ok, c, m, tr);
    assert Extends(m, m');
    match e
    case GoNode(id, k, operands) =>
      AllStay(operands, c, m, m');
      if n == id && Timed(k) {
        ClosedAllLocal(operands, c, m, m');
      } else {
        StepKeepsAllClosed(operands, n, v, ok, c, m, tr);
      }
    case GoLogic(id, left, right) =>
      Stays(left, c, m, m');
      if n == id {
        ClosedLocal(left, c, m, m');
        ClosedLocal(right, c, m, m');
      } else if Fire(left, n, ok, c, m, tr).Some? {
        FiresOnce(left, n, ok, c, m, tr);
        if id in m { NothingLeft(left, n, ok, c, m, tr); }
        StepKeepsClosed(left, n, v, ok, c, m, tr);
        ClosedLocal(right, c, m, m');
      } else {
        FiresOnce(right, n, ok, c, m, tr);
        StepKeepsClosed(right, n, v, ok, c, m, tr);
        ClosedLocal(left, c, m, m');
      }
    case _ =>
  }

  lemma {:induction false} StepKeepsAllClosed(es: seq<GoExpr>, n: int, v: Value, ok: bool, c: Context, m: Done, tr: Trace)
    requires ClosedAll(es, c, m) && TreeAll(es) && FireAll(es, n, ok, c, m, tr).Some?
    ensures ClosedAll(es, c, m[n := v])
    decreases es, 0
  {
    FiresOnceAll(es, n, ok, c, m, tr);
    assert Extends(m, m[n := v]);
    AllOrdersAreMoments(es[1..]);
    Stays(es[0], c, m, m[n := v]);
    if Fire(es[0], n, ok, c, m, tr).Some? {
      FiresOnce(es[0], n, ok, c, m, tr);
      StepKeepsClosed(es[0], n, v, ok, c, m, tr);
      ClosedAllLocal(es[1..], c, m, m[n := v]);
    } else {
      FiresOnceAll(es[1..], n, ok && Complete(es[0], c, m), c, m, tr);
      ClosedLocal(es[0], c, m, m[n := v]);
      StepKeepsAllClosed(es[1..], n, v, ok && Complete(es[0], c, m), c, m, tr);
    }
  }

  lemma {:induction false} ClosedLocal(e: GoExpr, c: Context, m: Done, m': Done)
    requires Closed(e, c, m) && Same(Moments(e), m, m')
    ensures Closed(e, c, m')
    decreases e, 1
  {
    match e
    case GoNode(_, _, operands) =>
      LocalAll(operands, c, m, m');
      ClosedAllLocal(operands, c, m, m');
    case GoLogic(_, left, right) =>
      Local(left, c, m, m');
      ClosedLocal(left, c, m, m');
      ClosedLocal(right, c, m, m');
    case _ =>
  }

  lemma {:induction false} ClosedAllLocal(es: seq<GoExpr>, c: Context, m: Done, m': Done)
    requires ClosedAll(es, c, m) && Same(MomentsAll(es), m, m')
    ensures ClosedAll(es, c, m')
    decreases es, 0
  {
    if es != [] {
      Local(es[0], c, m, m');
      AllOrdersAreMoments(es[1..]);
      ClosedLocal(es[0], c, m, m');
      ClosedAllLocal(es[1..], c, m, m');
    }
  }

  /** Only a call adds to the history. */
  lemma {:induction false} OthersReachNothing(e: GoExpr, n: int, v: Value, ok: bool, c: Context, m: Done, tr: Trace, tr0: Trace)
    requires Closed(e, c, m) && Tree(e) && Fire(e, n, ok, c, m, tr).Some? && n !in Calls(e)
    ensures Reached(e, c, m[n := v], tr0) == Reached(e, c, m, tr0)
    decreases e, 1
  {
    var m' := m[n := v];
    FiresOnce(e, n, ok, c, m, tr);
    assert Extends(m, m');
    match e
    case GoNode(id, k, operands) =>
      AllStay(operands, c, m, m');
      if n == id && Timed(k) {
        LocalAll(operands, c, m, m');
        ReachedAllLocal(operands, c, m, m', tr0);
      } else {
        FiresOnceAll(operands, n, ok, c, m, tr);
        OthersReachNothingAll(operands, n, v, ok, c, m, tr, tr0);
      }
    case GoLogic(id, left, right) =>
      Stays(left, c, m, m');
      if n == id {
        Local(left, c, m, m');
        ReachedLocal(left, c, m, m', tr0);
        OrdersAreMoments(right);
        NoOrders(right, c, m', Reached(left, c, m, tr0));
      } else if Fire(left, n, ok, c, m, tr).Some? {
        FiresOnce(left, n, ok, c, m, tr);
        OthersReachNothing(left, n, v, ok, c, m, tr, tr0);
        ReachedLocal(right, c, m, m', Reached(left, c, m, tr0));
      } else {
        FiresOnce(right, n, ok, c, m, tr);
        Local(left, c, m, m');
        ReachedLocal(left, c, m, m', tr0);
        OthersReachNothing(right, n, v, ok, c, m, tr, Reached(left, c, m, tr0));
      }
    case _ =>
  }

  lemma {:induction false} OthersReachNothingAll(
    es: seq<GoExpr>, n: int, v: Value, ok: bool, c: Context, m: Done, tr: Trace, tr0: Trace)
    requires ClosedAll(es, c, m) && TreeAll(es) && FireAll(es, n, ok, c, m, tr).Some? && n !in CallsAll(es)
    ensures ReachedAll(es, c, m[n := v], tr0) == ReachedAll(es, c, m, tr0)
    decreases es, 0
  {
    if Fire(es[0], n, ok, c, m, tr).Some? {
      FiresOnce(es[0], n, ok, c, m, tr);
      OthersReachNothing(es[0], n, v, ok, c, m, tr, tr0);
      ReachedAllLocal(es[1..], c, m, m[n := v], Reached(es[0], c, m, tr0));
    } else {
      FiresOnceAll(es[1..], n, ok && Complete(es[0], c, m), c, m, tr);
      ReachedLocal(es[0], c, m, m[n := v], tr0);
      OthersReachNothingAll(es[1..], n, v, ok && Complete(es[0], c, m), c, m, tr, Reached(es[0], c, m, tr0));
    }
  }

  /** The history grows by the call that happened. */
  lemma {:induction false} StepReaches(e: GoExpr, n: int, v: Value, ok: bool, c: Context, m: Done, tr: Trace, tr0: Trace)
    requires Closed(e, c, m) && Tree(e) && Fire(e, n, ok, c, m, tr).Some? && tr == Reached(e, c, m, tr0)
    ensures Fire(e, n, ok, c, m, tr).value.tr == Reached(e, c, m[n := v], tr0)
    decreases e, 1
  {
    var m' := m[n := v];
    FiresOnce(e, n, ok, c, m, tr);
    if n !in Calls(e) {
      OthersReachNothing(e, n, v, ok, c, m, tr, tr0);
    } else {
      match e
      case GoNode(id, k, operands) =>
        AllOrdersAreMoments(operands);
        if n == id && Timed(k) {
          LocalAll(operands, c, m, m');
          ReachedAllLocal(operands, c, m, m', tr0);
        } else {
          FiresOnceAll(operands, n, ok, c, m, tr);
          assert Extends(m, m');
          AllStay(operands, c, m, m');
          if k.CallNode? && id in m { NothingLeftAll(operands, n, ok, c, m, tr); }
          StepReachesAll(operands, n, v, ok, c, m, tr, tr0);
        }
      case GoLogic(id, left, right) =>
        OrdersAreMoments(left);
        OrdersAreMoments(right);
        if Fire(left, n, ok, c, m, tr).Some? {
          FiresOnce(left, n, ok, c, m, tr);
          if id in m { NothingLeft(left, n, ok, c, m, tr); }
          StepReaches(left, n, v, ok, c, m, tr, tr0);
        } else {
          FiresOnce(right, n, ok, c, m, tr);
          Local(left, c, m, m');
          ReachedLocal(left, c, m, m', tr0);
          StepReaches(right, n, v, ok, c, m, tr, Reached(left, c, m, tr0));
        }
      case GoOpaque(_) =>
    }
  }

  lemma {:induction false} StepReachesAll(
    es: seq<GoExpr>, n: int, v: Value, ok: bool, c: Context, m: Done, tr: Trace, tr0: Trace)
    requires ClosedAll(es, c, m) && TreeAll(es) && FireAll(es, n, ok, c, m, tr).Some? && tr == ReachedAll(es, c, m, tr0)
    ensures FireAll(es, n, ok, c, m, tr).value.tr == ReachedAll(es, c, m[n := v], tr0)
    decreases es, 0
  {
    var m' := m[n := v];
    FiresOnceAll(es, n, ok, c, m, tr);
    if n !in CallsAll(es) {
      OthersReachNothingAll(es, n, v, ok, c, m, tr, tr0);
    } else {
      OrdersAreMoments(es[0]);
      AllOrdersAreMoments(es[1..]);
      if Fire(es[0], n, ok, c, m, tr).Some? {
        FiresOnce(es[0], n, ok, c, m, tr);
        if Complete(es[0], c, m) { LeftIsLate(es[0], n, ok, c, m, tr); }
        AllNoOrders(es[1..], c, m, Reached(es[0], c, m, tr0));
        StepReaches(es[0], n, v, ok, c, m, tr, tr0);
        AllNoOrders(es[1..], c, m', Reached(es[0], c, m', tr0));
      } else {
        FiresOnceAll(es[1..], n, ok && Complete(es[0], c, m), c, m, tr);
        ReachedLocal(es[0], c, m, m', tr0);
        StepReachesAll(es[1..], n, v, ok && Complete(es[0], c, m), c, m, tr, Reached(es[0], c, m, tr0));
      }
    }
  }

  // ---------------------------------------------------------------- a step is that of the lexical order

  /** The history at which n happens is that of the lexical order, or does not matter to n. */
  ghost predicate Timely(e: GoExpr, n: int, still: set<int>, c: Context, m: Done, tr: Trace, tr0: Trace) {
    || tr == Reached(e, c, m, tr0)
    || (n !in Calls(e) && n !in Fails(e) && (n in still || n in Orders(e)))
  }

  ghost predicate TimelyAll(es: seq<GoExpr>, n: int, still: set<int>, c: Context, m: Done, tr: Trace, tr0: Trace) {
    || tr == ReachedAll(es, c, m, tr0)
    || (n !in CallsAll(es) && n !in FailsAll(es) && (n in still || n in OrdersAll(es)))
  }

  /** A node of the head: what could have happened behind the head does not matter to it. */
  lemma HeadIsTimely(
    es: seq<GoExpr>, n: int, ok: bool, still: set<int>, c: Context, m: Done, tr: Trace, tr0: Trace)
    requires es != [] && ClosedAll(es, c, m) && TreeAll(es) && ClearAll(es, still)
    requires Fire(es[0], n, ok, c, m, tr).Some? && TimelyAll(es, n, still, c, m, tr, tr0)
    ensures Timely(es[0], n, still, c, m, tr, tr0)
  {
    var at := Reached(es[0], c, m, tr0);
    FiresOnce(es[0], n, ok, c, m, tr);
    OrdersAreMoments(es[0]);
    AllOrdersAreMoments(es[1..]);
    if Complete(es[0], c, m) {
      LeftIsLate(es[0], n, ok, c, m, tr);
      if CallsAll(es[1..]) == {} { AllNoCalls(es[1..], c, m, at); }
    } else {
      AllNoOrders(es[1..], c, m, at);
    }
  }

  /** A node of the tail: what could still happen in the head does not matter to it. */
  lemma TailIsTimely(
    es: seq<GoExpr>, n: int, ok: bool, still: set<int>, c: Context, m: Done, tr: Trace, tr0: Trace)
    requires es != [] && ClosedAll(es, c, m) && TreeAll(es) && ClearAll(es, still) && Agrees(es[0], c, m, tr0)
    requires FireAll(es[1..], n, ok && Complete(es[0], c, m), c, m, tr).Some? && TimelyAll(es, n, still, c, m, tr, tr0)
    requires InOrder(es[0], c, tr0).Val?
    ensures TimelyAll(es[1..], n, still, c, m, tr, InOrder(es[0], c, tr0).tr)
  {
    FiresOnceAll(es[1..], n, ok && Complete(es[0], c, m), c, m, tr);
    OrdersAreMoments(es[0]);
    AllOrdersAreMoments(es[1..]);
    if Complete(es[0], c, m) {
      CompleteIsInOrder(es[0], c, m, tr0);
    } else {
      SoonAreEarly(es[1..], n, c, m, tr);
      if Calls(es[0]) == {} { NoCalls(es[0], c, m, tr0); }
    }
  }

  /** A panic of the tail: the head does not panic any more. */
  lemma HeadIsSafe(
    es: seq<GoExpr>, n: int, ok: bool, still: set<int>, c: Context, m: Done, tr: Trace, tr0: Trace)
    requires es != [] && ClosedAll(es, c, m) && TreeAll(es) && ClearAll(es, still) && Agrees(es[0], c, m, tr0)
    requires var o := FireAll(es[1..], n, ok && Complete(es[0], c, m), c, m, tr); o.Some? && o.value.Panic?
    ensures InOrder(es[0], c, tr0).Val?
  {
    FiresOnceAll(es[1..], n, ok && Complete(es[0], c, m), c, m, tr);
    AllOrdersAreMoments(es[1..]);
    if Complete(es[0], c, m) {
      assert Late(es[0], true) == {};
      CompleteIsSafe(es[0], c, m, tr0);
    } else {
      SoonAreEarly(es[1..], n, c, m, tr);
      NoCalls(es[0], c, m, tr0);
    }
  }

  /** What a step does, seen from the lexical order. */
  ghost predicate AsInOrder(e: GoExpr, n: int, o: Out<Value>, c: Context, m: Done, tr0: Trace) {
    && (o.Val? ==> Agrees(e, c, m[n := o.x], tr0))
    && (o.Panic? ==> InOrder(e, c, tr0) == Panic(o.id, o.tr))
  }

  ghost predicate AllAsInOrder(es: seq<GoExpr>, n: int, o: Out<Value>, c: Context, m: Done, tr0: Trace) {
    && (o.Val? ==> AgreesAll(es, c, m[n := o.x], tr0))
    && (o.Panic? ==> InOrderAll(es, c, tr0) == Panic(o.id, o.tr))
  }

  lemma {:induction false} StepAgrees(
    e: GoExpr, n: int, ok: bool, still: set<int>, c: Context, m: Done, tr: Trace, tr0: Trace)
    requires Closed(e, c, m) && Agrees(e, c, m, tr0) && Tree(e) && Clear(e, still) && Steady(c.w, still)
    requires Fire(e, n, ok, c, m, tr).Some? && Timely(e, n, still, c, m, tr, tr0)
    ensures AsInOrder(e, n, Fire(e, n, ok, c, m, tr).value, c, m, tr0)
    decreases e, 1
  {
    var o := Fire(e, n, ok, c, m, tr).value;
    FiresOnce(e, n, ok, c, m, tr);
    match e
    case GoRead(_) =>
    case GoOpaque(_) =>
    case GoNode(id, k, operands) =>
      if n == id && Timed(k) {
        FinishAgrees(e, ok, still, c, m, tr, tr0);
      } else {
        OperandAgrees(e, n, ok, still, c, m, tr, tr0);
        StepAgreesAll(operands, n, ok, still, c, m, tr, tr0);
        NodeAgrees(e, n, ok, c, m, tr, tr0);
      }
    case GoLogic(id, left, right) =>
      OrdersAreMoments(left);
      OrdersAreMoments(right);
      if n == id {
        DecisionAgrees(e, ok, c, m, tr, tr0);
      } else if Fire(left, n, ok, c, m, tr).Some? {
        FiresOnce(left, n, ok, c, m, tr);
        if id in m { NothingLeft(left, n, ok, c, m, tr); }
        StepAgrees(left, n, ok, still, c, m, tr, tr0);
      } else {
        FiresOnce(right, n, ok, c, m, tr);
        HasIsInOrder(left, c, m, tr0);
        StepAgrees(right, n, ok, still, c, m, tr, Reached(left, c, m, tr0));
        RightAgrees(e, n, ok, c, m, tr, tr0);
      }
  }

  lemma {:induction false} StepAgreesAll(
    es: seq<GoExpr>, n: int, ok: bool, still: set<int>, c: Context, m: Done, tr: Trace, tr0: Trace)
    requires ClosedAll(es, c, m) && AgreesAll(es, c, m, tr0) && TreeAll(es) && ClearAll(es, still) && Steady(c.w, still)
    requires FireAll(es, n, ok, c, m, tr).Some? && TimelyAll(es, n, still, c, m, tr, tr0)
    ensures AllAsInOrder(es, n, FireAll(es, n, ok, c, m, tr).value, c, m, tr0)
    decreases es, 0
  {
    var o := FireAll(es, n, ok, c, m, tr).value;
    FiresOnceAll(es, n, ok, c, m, tr);
    if Fire(es[0], n, ok, c, m, tr).Some? {
      FiresOnce(es[0], n, ok, c, m, tr);
      HeadIsTimely(es, n, ok, still, c, m, tr, tr0);
      StepAgrees(es[0], n, ok, still, c, m, tr, tr0);
      if o.Val? && InOrder(es[0], c, tr0).Val? {
        AgreesAllLocal(es[1..], c, m, m[n := o.x], InOrder(es[0], c, tr0).tr);
      }
    } else {
      var ok' := ok && Complete(es[0], c, m);
      FiresOnceAll(es[1..], n, ok', c, m, tr);
      if o.Val? { AgreesLocal(es[0], c, m, m[n := o.x], tr0); }
      if o.Panic? { HeadIsSafe(es, n, ok, still, c, m, tr, tr0); }
      if InOrder(es[0], c, tr0).Val? {
        TailIsTimely(es, n, ok, still, c, m, tr, tr0);
        StepAgreesAll(es[1..], n, ok', still, c, m, tr, InOrder(es[0], c, tr0).tr);
      }
    }
  }

  /** The node itself happens. */
  lemma FinishAgrees(e: GoExpr, ok: bool, still: set<int>, c: Context, m: Done, tr: Trace, tr0: Trace)
    requires e.GoNode? && Timed(e.kind) && Closed(e, c, m) && Agrees(e, c, m, tr0) && Tree(e) && Steady(c.w, still)
    requires Fire(e, e.id, ok, c, m, tr).Some? && Timely(e, e.id, still, c, m, tr, tr0)
    ensures AsInOrder(e, e.id, Fire(e, e.id, ok, c, m, tr).value, c, m, tr0)
  {
    var o := Fire(e, e.id, ok, c, m, tr).value;
    AllInOrder(e.operands, c, m, tr0);
    AllOrdersAreMoments(e.operands);
    var at := ReachedAll(e.operands, c, m, tr0);
    assert e.kind.CallNode? ==> e.id in Calls(e);
    assert MayFail(e.kind) ==> e.id in Fails(e);
    assert o.Val? || o.Panic?;
    if tr != at {
      assert !MarksImpure(e.kind) && e.id in still;
      assert Finish(e.id, e.kind, ValuesOf(e.operands, c, m), c.w, at).x == o.x;
    }
    if o.Val? {
      LocalAll(e.operands, c, m, m[e.id := o.x]);
      ReachedAllLocal(e.operands, c, m, m[e.id := o.x], tr0);
      AgreesAllLocal(e.operands, c, m, m[e.id := o.x], tr0);
    }
  }

  lemma OperandAgrees(e: GoExpr, n: int, ok: bool, still: set<int>, c: Context, m: Done, tr: Trace, tr0: Trace)
    requires e.GoNode? && !(n == e.id && Timed(e.kind)) && Closed(e, c, m) && Tree(e)
    requires Fire(e, n, ok, c, m, tr).Some? && Timely(e, n, still, c, m, tr, tr0)
    ensures TimelyAll(e.operands, n, still, c, m, tr, tr0)
  {
    FiresOnceAll(e.operands, n, ok, c, m, tr);
    AllOrdersAreMoments(e.operands);
    if Timed(e.kind) && e.id in m { NothingLeftAll(e.operands, n, ok, c, m, tr); }
  }

  lemma NodeAgrees(e: GoExpr, n: int, ok: bool, c: Context, m: Done, tr: Trace, tr0: Trace)
    requires e.GoNode? && !(n == e.id && Timed(e.kind)) && Closed(e, c, m) && Agrees(e, c, m, tr0) && Tree(e)
    requires Fire(e, n, ok, c, m, tr).Some?
    requires AllAsInOrder(e.operands, n, Fire(e, n, ok, c, m, tr).value, c, m, tr0)
    ensures AsInOrder(e, n, Fire(e, n, ok, c, m, tr).value, c, m, tr0)
  {
    FiresOnceAll(e.operands, n, ok, c, m, tr);
    if Timed(e.kind) && e.id in m { NothingLeftAll(e.operands, n, ok, c, m, tr); }
  }

  /** `&&` and `||` decide. */
  lemma DecisionAgrees(e: GoExpr, ok: bool, c: Context, m: Done, tr: Trace, tr0: Trace)
    requires e.GoLogic? && Closed(e, c, m) && Agrees(e, c, m, tr0) && Tree(e) && Fire(e, e.id, ok, c, m, tr).Some?
    ensures AsInOrder(e, e.id, Fire(e, e.id, ok, c, m, tr).value, c, m, tr0)
  {
    var o := Fire(e, e.id, ok, c, m, tr).value;
    var m' := m[e.id := o.x];
    Local(e.left, c, m, m');
    ReachedLocal(e.left, c, m, m', tr0);
    AgreesLocal(e.left, c, m, m', tr0);
    NothingYet(e.right, c, m', Reached(e.left, c, m, tr0));
  }

  lemma {:induction false} NothingYet(e: GoExpr, c: Context, m: Done, tr: Trace)
    requires NoneOf(Moments(e), m)
    ensures Agrees(e, c, m, tr) && Closed(e, c, m)
    decreases e, 1
  {
    match e
    case GoNode(id, k, operands) =>
      assert Timed(k) ==> id in Moments(e);
      NothingYetAll(operands, c, m, tr);
    case GoLogic(id, left, right) =>
      assert id in Moments(e);
      NothingYet(left, c, m, tr);
      NothingYet(right, c, m, tr);
    case GoRead(id) => assert id in Moments(e);
    case GoOpaque(id) => assert id in Moments(e);
    case _ =>
  }

  lemma {:induction false} NothingYetAll(es: seq<GoExpr>, c: Context, m: Done, tr: Trace)
    requires NoneOf(MomentsAll(es), m)
    ensures AgreesAll(es, c, m, tr) && ClosedAll(es, c, m)
    decreases es, 0
  {
    if es != [] {
      AllOrdersAreMoments(es[1..]);
      NothingYet(es[0], c, m, tr);
      NothingYetAll(es[1..], c, m, InOrder(es[0], c, tr).tr);
    }
  }

  /** In the conditional operand. */
  lemma RightAgrees(e: GoExpr, n: int, ok: bool, c: Context, m: Done, tr: Trace, tr0: Trace)
    requires e.GoLogic? && n != e.id && Closed(e, c, m) && Agrees(e, c, m, tr0) && Tree(e)
    requires Fire(e.left, n, ok, c, m, tr) == None && Fire(e, n, ok, c, m, tr).Some?
    requires AsInOrder(e.right, n, Fire(e, n, ok, c, m, tr).value, c, m, Reached(e.left, c, m, tr0))
    ensures AsInOrder(e, n, Fire(e, n, ok, c, m, tr).value, c, m, tr0)
  {
    var o := Fire(e, n, ok, c, m, tr).value;
    FiresOnce(e.right, n, ok, c, m, tr);
    HasIsInOrder(e.left, c, m, tr0);
    if o.Val? {
      Local(e.left, c, m, m[n := o.x]);
      ReachedLocal(e.left, c, m, m[n := o.x], tr0);
      AgreesLocal(e.left, c, m, m[n := o.x], tr0);
    }
  }

  // ---------------------------------------------------------------- whole runs

  /** The run so far agrees with the lexical order. */
  ghost predicate OnCourse(es: seq<GoExpr>, c: Context, m: Done, tr: Trace, tr0: Trace) {
    ClosedAll(es, c, m) && AgreesAll(es, c, m, tr0) && tr == ReachedAll(es, c, m, tr0)
  }

  lemma {:induction false} RunAgrees(
    es: seq<GoExpr>, sched: seq<int>, ok: bool, still: set<int>, c: Context, m: Done, tr: Trace, tr0: Trace)
    requires OnCourse(es, c, m, tr, tr0) && TreeAll(es) && ClearAll(es, still) && Steady(c.w, still)
    requires RunAll(es, sched, ok, c, m, tr).Some?
    ensures match RunAll(es, sched, ok, c, m, tr).value
            case Going(m', tr') => OnCourse(es, c, m', tr', tr0)
            case Fell(id, tr') => InOrderAll(es, c, tr0) == Panic(id, tr')
    decreases |sched|
  {
    if sched != [] {
      StepAgreesAll(es, sched[0], ok, still, c, m, tr, tr0);
      var o := FireAll(es, sched[0], ok, c, m, tr).value;
      if o.Val? {
        StepKeepsAllClosed(es, sched[0], o.x, ok, c, m, tr);
        StepReachesAll(es, sched[0], o.x, ok, c, m, tr, tr0);
        RunAgrees(es, sched[1..], ok, still, c, m[sched[0] := o.x], o.tr, tr0);
      }
    }
  }

  /** Where nothing can change places that matters, every schedule ends as the lexical order does. */
  lemma AnyOrderIsInOrder(es: seq<GoExpr>, sched: seq<int>, still: set<int>, c: Context, tr: Trace)
    requires TreeAll(es) && ClearAll(es, still) && Steady(c.w, still) && Ends(es, sched, c, tr).Some?
    ensures Ends(es, sched, c, tr).value == InOrderAll(es, c, tr)
  {
    NothingYetAll(es, c, map[], tr);
    AllNoOrders(es, c, map[], tr);
    RunAgrees(es, sched, true, still, c, map[], tr, tr);
    var r := RunAll(es, sched, true, c, map[], tr).value;
    if r.Going? { AllInOrder(es, c, r.m, tr); }
  }
}
