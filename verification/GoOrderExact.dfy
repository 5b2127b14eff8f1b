/** Where something can change places that matters, there is a world and a schedule to show it. */
module GoOrderExact {
  import opened Wrappers
  import opened TryHoisting
  import opened TryHoistingProofs
  import opened GoOrder
  import opened GoOrderProofs
  import opened GoSchedules
  import opened MovedEffects

  // ---------------------------------------------------------------- the pair that changes places

  /** A node that may panic and another, such a node and a call, or a read and a call. */
  datatype Pair = TwoPanics | PanicAndCall | ReadAndCall

  /** What the first node of such a pair changes places with. */
  function Others(e: GoExpr, p: Pair): set<int> { if p.TwoPanics? then Fails(e) else Calls(e) }
  function OthersIn(es: seq<GoExpr>, p: Pair): set<int> { if p.TwoPanics? then FailsAll(es) else CallsAll(es) }

  /** Between the head and the tail of a list. The floating node a and the node b can change
      places: `late`, a comes first in lexical order; else b. */
  predicate ClashesHere(es: seq<GoExpr>, a: int, b: int, late: bool, p: Pair) {
    && es != []
    && if late then a in Late(es[0], !p.ReadAndCall?) && b in OthersIn(es[1..], p)
       else a in EarlyAll(es[1..], !p.ReadAndCall?) && b in Others(es[0], p)
  }

  /** Anywhere in e. */
  predicate Clashes(e: GoExpr, a: int, b: int, late: bool, p: Pair)
    decreases e, 1
  {
    match e
    case GoNode(_, _, operands) => ClashesAll(operands, a, b, late, p)
    case GoLogic(_, left, right) => Clashes(left, a, b, late, p) || Clashes(right, a, b, late, p)
    case _ => false
  }

  predicate ClashesAll(es: seq<GoExpr>, a: int, b: int, late: bool, p: Pair)
    decreases es, 0
  {
    && es != []
    && (Clashes(es[0], a, b, late, p) || ClashesAll(es[1..], a, b, late, p) || ClashesHere(es, a, b, late, p))
  }

  lemma {:induction false} FindClash(e: GoExpr, still: set<int>) returns (a: int, b: int, late: bool, p: Pair)
    requires !Clear(e, still)
    ensures Clashes(e, a, b, late, p) && (p.ReadAndCall? ==> a !in still)
    decreases e, 1
  {
    match e
    case GoNode(_, _, operands) => a, b, late, p := FindClashIn(operands, still);
    case GoLogic(_, left, right) =>
      if !Clear(left, still) {
        a, b, late, p := FindClash(left, still);
      } else {
        a, b, late, p := FindClash(right, still);
      }
  }

  lemma {:induction false} FindClashIn(es: seq<GoExpr>, still: set<int>) returns (a: int, b: int, late: bool, p: Pair)
    requires !ClearAll(es, still)
    ensures ClashesAll(es, a, b, late, p) && (p.ReadAndCall? ==> a !in still)
    decreases es, 0
  {
    var h, t := es[0], es[1..];
    if !Clear(h, still) {
      a, b, late, p := FindClash(h, still);
    } else if !ClearAll(t, still) {
      a, b, late, p := FindClashIn(t, still);
    } else if Late(h, true) != {} && CallsAll(t) != {} {
      a, b, late, p := PickPair(Late(h, true), {}, CallsAll(t), true, PanicAndCall);
    } else if Late(h, true) != {} && FailsAll(t) != {} {
      a, b, late, p := PickPair(Late(h, true), {}, FailsAll(t), true, TwoPanics);
    } else if EarlyAll(t, true) != {} && Calls(h) != {} {
      a, b, late, p := PickPair(EarlyAll(t, true), {}, Calls(h), false, PanicAndCall);
    } else if EarlyAll(t, true) != {} && Fails(h) != {} {
      a, b, late, p := PickPair(EarlyAll(t, true), {}, Fails(h), false, TwoPanics);
    } else if !(Late(h, false) <= still) && CallsAll(t) != {} {
      a, b, late, p := PickPair(Late(h, false), still, CallsAll(t), true, ReadAndCall);
    } else {
      a, b, late, p := PickPair(EarlyAll(t, false), still, Calls(h), false, ReadAndCall);
    }
  }

  lemma PickPair(firsts: set<int>, still: set<int>, seconds: set<int>, late: bool, p: Pair)
    returns (a: int, b: int, late': bool, p': Pair)
    requires !(firsts <= still) && seconds != {}
    ensures a in firsts && a !in still && b in seconds && late' == late && p' == p
  {
    a := PickOutside(firsts, still);
    b := Pick(seconds);
    late', p' := late, p;
  }

  lemma {:induction false} FloatsAreMoments(e: GoExpr, fails: bool)
    ensures Late(e, fails) <= Moments(e) && Early(e, fails) <= Moments(e)
    ensures fails ==> Late(e, fails) <= Fails(e) && Early(e, fails) <= Fails(e)
    decreases e, 1
  {
    match e
    case GoNode(_, _, operands) => AllFloatsAreMoments(operands, fails);
    case GoLogic(_, left, right) => FloatsAreMoments(left, fails); FloatsAreMoments(right, fails);
    case _ =>
  }

  lemma {:induction false} AllFloatsAreMoments(es: seq<GoExpr>, fails: bool)
    ensures LateAll(es, fails) <= MomentsAll(es) && EarlyAll(es, fails) <= MomentsAll(es)
    ensures fails ==> LateAll(es, fails) <= FailsAll(es) && EarlyAll(es, fails) <= FailsAll(es)
    decreases es, 0
  {
    if es != [] { FloatsAreMoments(es[0], fails); AllFloatsAreMoments(es[1..], fails); }
  }

  lemma {:induction false} ClashNodes(e: GoExpr, a: int, b: int, late: bool, p: Pair)
    requires Clashes(e, a, b, late, p)
    ensures a in Moments(e) && b in Moments(e)
    decreases e, 1
  {
    match e
    case GoNode(_, _, operands) => ClashAllNodes(operands, a, b, late, p);
    case GoLogic(_, left, right) =>
      if Clashes(left, a, b, late, p) { ClashNodes(left, a, b, late, p); } else { ClashNodes(right, a, b, late, p); }
  }

  lemma {:induction false} ClashAllNodes(es: seq<GoExpr>, a: int, b: int, late: bool, p: Pair)
    requires ClashesAll(es, a, b, late, p)
    ensures a in MomentsAll(es) && b in MomentsAll(es)
    decreases es, 0
  {
    if Clashes(es[0], a, b, late, p) {
      ClashNodes(es[0], a, b, late, p);
    } else if ClashesAll(es[1..], a, b, late, p) {
      ClashAllNodes(es[1..], a, b, late, p);
    } else {
      OrdersAreMoments(es[0]);
      AllOrdersAreMoments(es[1..]);
      FloatsAreMoments(es[0], !p.ReadAndCall?);
      AllFloatsAreMoments(es[1..], !p.ReadAndCall?);
    }
  }

  // ---------------------------------------------------------------- away from the trap

  ghost predicate Trapped(c: Context, t: Trap) { c.w == Probe(t) && AllGood(c.temps) && !t.when.Always? }

  lemma {:induction false} GoClean(e: GoExpr, t: Trap, c: Context, tr: Trace)
    requires Trapped(c, t) && Away(t, Moments(e), tr)
    ensures var o := InOrder(e, c, tr); o.Val? && o.x == Atom(0) && Between(tr, o.tr, Moments(e))
    decreases e, 1
  {
    match e
    case GoNode(id, k, operands) =>
      GoAllClean(operands, t, c, tr);
      var o := InOrderAll(operands, c, tr);
      StaysAway(t, MomentsAll(operands), tr, o.tr, MomentsAll(operands));
      assert Timed(k) ==> id in Moments(e);
      BetweenMore(tr, o.tr, MomentsAll(operands), Moments(e));
      if k.CallNode? {
        ActBetween(id, o.x, c.w, o.tr, Moments(e));
        BetweenThen(tr, o.tr, InOrder(e, c, tr).tr, Moments(e), Moments(e));
      }
      AwayThen(t, Moments(e), tr, o.tr);
    case GoLogic(_, left, right) =>
      GoClean(left, t, c, tr);
      var o := InOrder(left, c, tr);
      BetweenMore(tr, o.tr, Moments(left), Moments(e));
      StaysAway(t, Moments(e), tr, o.tr, Moments(right));
      GoClean(right, t, c, o.tr);
      BetweenThen(tr, o.tr, InOrder(right, c, o.tr).tr, Moments(e), Moments(right));
    case GoOpaque(id) =>
      ActBetween(id, [], c.w, tr, Moments(e));
    case _ =>
  }

  lemma AwayThen(t: Trap, ids: set<int>, tr: Trace, tr': Trace)
    requires Away(t, ids, tr) && Between(tr, tr', ids)
    ensures Away(t, ids, tr')
  {
    StaysAway(t, ids, tr, tr', ids);
  }

  lemma {:induction false} GoAllClean(es: seq<GoExpr>, t: Trap, c: Context, tr: Trace)
    requires Trapped(c, t) && Away(t, MomentsAll(es), tr)
    ensures var o := InOrderAll(es, c, tr); o.Val? && Clean(o.x) && Between(tr, o.tr, MomentsAll(es))
    decreases es, 0
  {
    if es != [] {
      GoClean(es[0], t, c, tr);
      var o := InOrder(es[0], c, tr);
      BetweenMore(tr, o.tr, Moments(es[0]), MomentsAll(es));
      StaysAway(t, MomentsAll(es), tr, o.tr, MomentsAll(es[1..]));
      GoAllClean(es[1..], t, c, o.tr);
      BetweenThen(tr, o.tr, InOrderAll(es[1..], c, o.tr).tr, MomentsAll(es), MomentsAll(es[1..]));
    }
  }

  /** Every call of e happens. */
  lemma {:induction false} CallHappens(e: GoExpr, b: int, t: Trap, c: Context, tr: Trace)
    requires Trapped(c, t) && Off(t, Moments(e)) && b in Calls(e)
    ensures Seen(InOrder(e, c, tr).tr, b)
    decreases e, 1
  {
    match e
    case GoNode(id, k, operands) =>
      GoAllClean(operands, t, c, tr);
      assert Timed(k) ==> id in Moments(e);
      var o := InOrderAll(operands, c, tr);
      if b in CallsAll(operands) { CallHappensIn(operands, b, t, c, tr); }
      SeenSnoc(o.tr, id, o.x);
    case GoLogic(_, left, right) =>
      GoClean(left, t, c, tr);
      var o := InOrder(left, c, tr);
      GoClean(right, t, c, o.tr);
      if b in Calls(left) { CallHappens(left, b, t, c, tr); } else { CallHappens(right, b, t, c, o.tr); }
    case GoOpaque(id) => SeenSnoc(tr, id, []);
  }

  lemma {:induction false} CallHappensIn(es: seq<GoExpr>, b: int, t: Trap, c: Context, tr: Trace)
    requires Trapped(c, t) && Off(t, MomentsAll(es)) && b in CallsAll(es)
    ensures Seen(InOrderAll(es, c, tr).tr, b)
    decreases es, 0
  {
    GoClean(es[0], t, c, tr);
    var o := InOrder(es[0], c, tr);
    GoAllClean(es[1..], t, c, o.tr);
    if b in Calls(es[0]) { CallHappens(es[0], b, t, c, tr); } else { CallHappensIn(es[1..], b, t, c, o.tr); }
  }

  /** Only p panics. */
  ghost predicate OnlyFalls(t: Trap, p: int, ids: set<int>) {
    p in t.falls && Off(t, ids - {p})
  }

  /** The lexical order runs up to the one node that panics. */
  lemma {:induction false} FallsAt(e: GoExpr, p: int, t: Trap, c: Context, tr: Trace)
    requires Trapped(c, t) && Tree(e) && p in Fails(e) && OnlyFalls(t, p, Moments(e))
    ensures var o := InOrder(e, c, tr); o.Panic? && o.id == p && Between(tr, o.tr, Moments(e))
    decreases e, 1
  {
    OrdersAreMoments(e);
    match e
    case GoNode(id, k, operands) =>
      AllOrdersAreMoments(operands);
      if p in FailsAll(operands) {
        FallsAtIn(operands, p, t, c, tr);
        BetweenMore(tr, InOrderAll(operands, c, tr).tr, MomentsAll(operands), Moments(e));
      } else {
        GoAllClean(operands, t, c, tr);
        BetweenMore(tr, InOrderAll(operands, c, tr).tr, MomentsAll(operands), Moments(e));
      }
    case GoLogic(_, left, right) =>
      OrdersAreMoments(left);
      OrdersAreMoments(right);
      if p in Fails(left) {
        FallsAt(left, p, t, c, tr);
        BetweenMore(tr, InOrder(left, c, tr).tr, Moments(left), Moments(e));
      } else {
        assert Moments(left) <= Moments(e) - {p};
        GoClean(left, t, c, tr);
        var o := InOrder(left, c, tr);
        FallsAt(right, p, t, c, o.tr);
        BetweenMore(tr, o.tr, Moments(left), Moments(e));
        BetweenThen(tr, o.tr, InOrder(right, c, o.tr).tr, Moments(e), Moments(right));
      }
  }

  lemma {:induction false} FallsAtIn(es: seq<GoExpr>, p: int, t: Trap, c: Context, tr: Trace)
    requires Trapped(c, t) && TreeAll(es) && p in FailsAll(es) && OnlyFalls(t, p, MomentsAll(es))
    ensures var o := InOrderAll(es, c, tr); o.Panic? && o.id == p && Between(tr, o.tr, MomentsAll(es))
    decreases es, 0
  {
    OrdersAreMoments(es[0]);
    AllOrdersAreMoments(es[1..]);
    if p in Fails(es[0]) {
      FallsAt(es[0], p, t, c, tr);
      BetweenMore(tr, InOrder(es[0], c, tr).tr, Moments(es[0]), MomentsAll(es));
    } else {
      assert Moments(es[0]) <= MomentsAll(es) - {p};
      GoClean(es[0], t, c, tr);
      var o := InOrder(es[0], c, tr);
      FallsAtIn(es[1..], p, t, c, o.tr);
      BetweenMore(tr, o.tr, Moments(es[0]), MomentsAll(es));
      BetweenThen(tr, o.tr, InOrderAll(es[1..], c, o.tr).tr, MomentsAll(es), MomentsAll(es[1..]));
    }
  }

  // ---------------------------------------------------------------- the lexical order, step by step

  /** m' has more of the nodes of ids than m. */
  ghost predicate Widens(m: Done, m': Done, ids: set<int>) {
    Extends(m, m') && forall i :: i in m' ==> i in m || i in ids
  }

  /** Away from the trap the lexical order is a schedule that runs through. */
  lemma LexicalClean(e: GoExpr, ok: bool, t: Trap, c: Context, m: Done, tr: Trace)
    returns (s: seq<int>, m': Done, tr': Trace)
    requires NoneOf(Moments(e), m) && Tree(e) && (ok || Orders(e) == {}) && Trapped(c, t) && Away(t, Moments(e), tr)
    ensures RunAll([e], s, ok, c, m, tr) == Some(Going(m', tr')) && InOrder(e, c, tr) == Val(Atom(0), tr')
    ensures Widens(m, m', Moments(e)) && Has(e, c, m') && Complete(e, c, m') && ValueOf(e, c, m') == Atom(0)
    ensures Between(tr, tr', Moments(e))
  {
    hide Probe;
    s := Lexical(e, ok, c, m, tr);
    GoClean(e, t, c, tr);
    tr' := InOrder(e, c, tr).tr;
    m' :| RunAll([e], s, ok, c, m, tr) == Some(Going(m', tr')) && Filled(e, c, m, m') && ValueOf(e, c, m') == Atom(0);
  }

  lemma LexicalAllClean(es: seq<GoExpr>, ok: bool, t: Trap, c: Context, m: Done, tr: Trace)
    returns (s: seq<int>, m': Done, tr': Trace)
    requires NoneOf(MomentsAll(es), m) && TreeAll(es) && (ok || OrdersAll(es) == {})
    requires Trapped(c, t) && Away(t, MomentsAll(es), tr)
    ensures RunAll(es, s, ok, c, m, tr) == Some(Going(m', tr'))
    ensures InOrderAll(es, c, tr).Val? && InOrderAll(es, c, tr).tr == tr'
    ensures Widens(m, m', MomentsAll(es)) && HasAll(es, c, m') && CompleteAll(es, c, m')
    ensures Between(tr, tr', MomentsAll(es))
  {
    hide Probe;
    s := LexicalAll(es, ok, c, m, tr);
    GoAllClean(es, t, c, tr);
    var o := InOrderAll(es, c, tr);
    tr' := o.tr;
    m' :| RunAll(es, s, ok, c, m, tr) == Some(Going(m', tr')) && FilledAll(es, c, m, m') && ValuesOf(es, c, m') == o.x;
  }

  // ---------------------------------------------------------------- all but one

  /** The trap is at a, which panics or is odd. */
  predicate Baited(t: Trap, a: int, fails: bool) { t.x == a && (fails <==> a in t.falls) }

  /** What node a does where the trap springs. */
  ghost predicate Strikes(o: Option<Out<Value>>, a: int, fails: bool, t: Trap, tr: Trace) {
    if fails then o == Some(Panic(a, tr)) else Springs(t, a, tr) ==> o == Some(Val(t.odd, tr))
  }

  /** Node a has its operands, and may happen now. */
  ghost predicate Loaded(e: GoExpr, a: int, fails: bool, t: Trap, c: Context, m: Done) {
    forall ok, tr :: Strikes(Fire(e, a, ok, c, m, tr), a, fails, t, tr)
  }

  ghost predicate LoadedAll(es: seq<GoExpr>, a: int, fails: bool, t: Trap, c: Context, m: Done) {
    forall ok, tr :: Strikes(FireAll(es, a, ok, c, m, tr), a, fails, t, tr)
  }

  lemma {:induction false} FireLocal(e: GoExpr, n: int, ok: bool, c: Context, m: Done, m': Done, tr: Trace)
    requires Same(Moments(e), m, m')
    ensures Fire(e, n, ok, c, m, tr) == Fire(e, n, ok, c, m', tr)
    decreases e, 1
  {
    match e
    case GoNode(_, _, operands) =>
      LocalAll(operands, c, m, m');
      FireAllLocal(operands, n, ok, c, m, m', tr);
    case GoLogic(_, left, right) =>
      Local(left, c, m, m');
      FireLocal(left, n, ok, c, m, m', tr);
      FireLocal(right, n, ok, c, m, m', tr);
    case _ =>
  }

  lemma {:induction false} FireAllLocal(es: seq<GoExpr>, n: int, ok: bool, c: Context, m: Done, m': Done, tr: Trace)
    requires Same(MomentsAll(es), m, m')
    ensures FireAll(es, n, ok, c, m, tr) == FireAll(es, n, ok, c, m', tr)
    decreases es, 0
  {
    if es != [] {
      Local(es[0], c, m, m');
      FireLocal(es[0], n, ok, c, m, m', tr);
      FireAllLocal(es[1..], n, ok && Complete(es[0], c, m), c, m, m', tr);
    }
  }

  /** The node itself, behind its operands. */
  lemma LoadedHere(e: GoExpr, fails: bool, t: Trap, c: Context, m: Done)
    requires (e.GoRead? && !fails) || (e.GoNode? && Floats(e.kind, fails) && HasAll(e.operands, c, m))
    requires Trapped(c, t) && Baited(t, e.id, fails) && e.id !in m
    ensures Loaded(e, e.id, fails, t, c, m)
  {
  }

  lemma LoadedInNode(e: GoExpr, a: int, fails: bool, t: Trap, c: Context, m: Done)
    requires e.GoNode? && a != e.id && LoadedAll(e.operands, a, fails, t, c, m)
    ensures Loaded(e, a, fails, t, c, m)
  {
    forall ok, tr ensures Strikes(Fire(e, a, ok, c, m, tr), a, fails, t, tr) {
      assert Strikes(FireAll(e.operands, a, ok, c, m, tr), a, fails, t, tr);
    }
  }

  lemma LoadedInHead(es: seq<GoExpr>, a: int, fails: bool, t: Trap, c: Context, m: Done, m': Done)
    requires es != [] && Loaded(es[0], a, fails, t, c, m) && Same(Moments(es[0]), m, m') && Tree(es[0])
    requires a !in MomentsAll(es[1..]) && TreeAll(es[1..])
    ensures LoadedAll(es, a, fails, t, c, m')
  {
    forall ok, tr ensures Strikes(FireAll(es, a, ok, c, m', tr), a, fails, t, tr) {
      FireLocal(es[0], a, ok, c, m, m', tr);
      assert Strikes(Fire(es[0], a, ok, c, m, tr), a, fails, t, tr);
    }
  }

  lemma LoadedInTail(es: seq<GoExpr>, a: int, fails: bool, t: Trap, c: Context, m: Done)
    requires es != [] && LoadedAll(es[1..], a, fails, t, c, m) && Tree(es[0]) && a !in Moments(es[0])
    ensures LoadedAll(es, a, fails, t, c, m)
  {
    forall ok, tr ensures Strikes(FireAll(es, a, ok, c, m, tr), a, fails, t, tr) {
      if Fire(es[0], a, ok, c, m, tr).Some? { FiresOnce(es[0], a, ok, c, m, tr); }
      assert Strikes(FireAll(es[1..], a, ok && Complete(es[0], c, m), c, m, tr), a, fails, t, tr);
    }
  }

  /** A late node can wait until all calls and logical operations are over. */
  lemma {:induction false} SkipTo(e: GoExpr, a: int, fails: bool, t: Trap, c: Context, m: Done, tr: Trace)
    returns (s: seq<int>, m': Done, tr': Trace)
    requires Trapped(c, t) && Baited(t, a, fails) && Off(t, Moments(e) - {a})
    requires NoneOf(Moments(e), m) && Tree(e) && a in Late(e, fails)
    ensures RunAll([e], s, true, c, m, tr) == Some(Going(m', tr'))
    ensures Widens(m, m', Moments(e) - {a}) && Between(tr, tr', Moments(e))
    ensures Complete(e, c, m') && Loaded(e, a, fails, t, c, m')
    decreases e, 1
  {
    match e
    case GoRead(id) =>
      s, m', tr' := [], m, tr;
      LoadedHere(e, fails, t, c, m);
    case GoNode(id, k, operands) =>
      AllFloatsAreMoments(operands, fails);
      if a in LateAll(operands, fails) {
        s, m', tr' := SkipToIn(operands, a, fails, t, c, m, tr);
        LoadedInNode(e, a, fails, t, c, m');
      } else {
        s, m', tr' := LexicalAllClean(operands, true, t, c, m, tr);
        LoadedHere(e, fails, t, c, m');
      }
      RunOperands(e, s, true, c, m, tr);
      BetweenMore(tr, tr', MomentsAll(operands), Moments(e));
  }

  lemma {:induction false} SkipToIn(es: seq<GoExpr>, a: int, fails: bool, t: Trap, c: Context, m: Done, tr: Trace)
    returns (s: seq<int>, m': Done, tr': Trace)
    requires Trapped(c, t) && Baited(t, a, fails) && Off(t, MomentsAll(es) - {a})
    requires NoneOf(MomentsAll(es), m) && TreeAll(es) && a in LateAll(es, fails)
    ensures RunAll(es, s, true, c, m, tr) == Some(Going(m', tr'))
    ensures Widens(m, m', MomentsAll(es) - {a}) && Between(tr, tr', MomentsAll(es))
    ensures CompleteAll(es, c, m') && LoadedAll(es, a, fails, t, c, m')
    decreases es, 0
  {
    hide Probe, Loaded, LoadedAll;
    FloatsAreMoments(es[0], fails);
    AllFloatsAreMoments(es[1..], fails);
    var q, m1, tr1;
    if a in Late(es[0], fails) {
      assert MomentsAll(es[1..]) <= MomentsAll(es) - {a};
      s, m1, tr1 := SkipTo(es[0], a, fails, t, c, m, tr);
      q, m', tr' := LexicalAllClean(es[1..], true, t, c, m1, tr1);
      LoadedInHead(es, a, fails, t, c, m1, m');
    } else {
      assert Moments(es[0]) <= MomentsAll(es) - {a};
      s, m1, tr1 := LexicalClean(es[0], true, t, c, m, tr);
      q, m', tr' := SkipToIn(es[1..], a, fails, t, c, m1, tr1);
      LoadedInTail(es, a, fails, t, c, m');
    }
    RunHead(es, s, true, c, m, tr);
    RunTail(es, q, true, c, m1, tr1);
    RunThen(es, s, q, true, c, m, tr);
    s := s + q;
    Local(es[0], c, m1, m');
    BetweenMore(tr, tr1, Moments(es[0]), MomentsAll(es));
    BetweenThen(tr, tr1, tr', MomentsAll(es), MomentsAll(es[1..]));
  }

  /** An early node can go first. */
  lemma {:induction false} EarlyRun(e: GoExpr, a: int, fails: bool, ok: bool, t: Trap, c: Context, m: Done, tr: Trace)
    returns (s: seq<int>, m': Done)
    requires Trapped(c, t) && Baited(t, a, fails) && Off(t, Moments(e) - {a})
    requires NoneOf(Moments(e), m) && Tree(e) && a in Early(e, fails)
    ensures RunAll([e], s, ok, c, m, tr) == Some(Going(m', tr))
    ensures Widens(m, m', Moments(e) - {a}) && Loaded(e, a, fails, t, c, m')
    decreases e, 1
  {
    match e
    case GoRead(id) =>
      s, m' := [], m;
      LoadedHere(e, fails, t, c, m);
    case GoNode(id, k, operands) =>
      AllFloatsAreMoments(operands, fails);
      if a in EarlyAll(operands, fails) {
        s, m' := EarlyRunIn(operands, a, fails, ok, t, c, m, tr);
        LoadedInNode(e, a, fails, t, c, m');
      } else {
        AllOrdersAreMoments(operands);
        AllNoCalls(operands, c, m, tr);
        var tr';
        s, m', tr' := LexicalAllClean(operands, ok, t, c, m, tr);
        LoadedHere(e, fails, t, c, m');
      }
      RunOperands(e, s, ok, c, m, tr);
    case GoLogic(id, left, right) =>
      FloatsAreMoments(left, fails);
      s, m' := EarlyRun(left, a, fails, ok, t, c, m, tr);
      RunLeft(e, s, ok, c, m, tr);
      LoadedInLeft(e, a, fails, t, c, m');
  }

  lemma LoadedInLeft(e: GoExpr, a: int, fails: bool, t: Trap, c: Context, m: Done)
    requires e.GoLogic? && a != e.id && e.id !in m && Loaded(e.left, a, fails, t, c, m)
    ensures Loaded(e, a, fails, t, c, m)
  {
    forall ok, tr ensures Strikes(Fire(e, a, ok, c, m, tr), a, fails, t, tr) {
      assert Strikes(Fire(e.left, a, ok, c, m, tr), a, fails, t, tr);
    }
  }

  lemma {:induction false} EarlyRunIn(
    es: seq<GoExpr>, a: int, fails: bool, ok: bool, t: Trap, c: Context, m: Done, tr: Trace)
    returns (s: seq<int>, m': Done)
    requires Trapped(c, t) && Baited(t, a, fails) && Off(t, MomentsAll(es) - {a})
    requires NoneOf(MomentsAll(es), m) && TreeAll(es) && a in EarlyAll(es, fails)
    ensures RunAll(es, s, ok, c, m, tr) == Some(Going(m', tr))
    ensures Widens(m, m', MomentsAll(es) - {a}) && LoadedAll(es, a, fails, t, c, m')
    decreases es, 0
  {
    hide Probe, Loaded, LoadedAll;
    FloatsAreMoments(es[0], fails);
    AllFloatsAreMoments(es[1..], fails);
    if a in Early(es[0], fails) {
      s, m' := EarlyRun(es[0], a, fails, ok, t, c, m, tr);
      RunHead(es, s, ok, c, m, tr);
      LoadedInHead(es, a, fails, t, c, m', m');
    } else {
      s, m' := EarlyRunIn(es[1..], a, fails, ok && Complete(es[0], c, m), t, c, m, tr);
      RunTail(es, s, ok, c, m, tr);
      LoadedInTail(es, a, fails, t, c, m');
    }
  }

  // ---------------------------------------------------------------- the two orders

  /** The trap that tells the two orders of a and b apart. */
  function Snare(a: int, b: int, late: bool, p: Pair, odd: Value): Trap {
    match p
    case TwoPanics => Trap(a, Behind(a), Atom(0), {a, b})
    case PanicAndCall => Trap(a, Behind(a), Atom(0), {a})
    case ReadAndCall => Trap(a, if late then Behind(b) else Before(b), odd, {})
  }

  /** The panic of the order in which a comes first, or else the one in which b does. */
  predicate FellIn(first: bool, a: int, b: int, p: Pair, id: int, tr: Trace) {
    a != b && if p.TwoPanics? then id == if first then a else b else id == a && (Seen(tr, b) <==> !first)
  }

  /** How the lexical order ends. */
  ghost predicate EndsInOrder<T>(o: Out<T>, a: int, b: int, late: bool, p: Pair) {
    if p.ReadAndCall? then o.Val? else o.Panic? && FellIn(late, a, b, p, o.id, o.tr)
  }

  lemma HereNodes(es: seq<GoExpr>, a: int, b: int, late: bool, p: Pair)
    requires ClashesHere(es, a, b, late, p) && TreeAll(es)
    ensures late ==> a in Moments(es[0]) && b in MomentsAll(es[1..]) && a !in MomentsAll(es[1..]) && b !in Moments(es[0])
    ensures !late ==> b in Moments(es[0]) && a in MomentsAll(es[1..]) && b !in MomentsAll(es[1..]) && a !in Moments(es[0])
    ensures !p.ReadAndCall? ==> a in if late then Fails(es[0]) else FailsAll(es[1..])
  {
    OrdersAreMoments(es[0]);
    AllOrdersAreMoments(es[1..]);
    FloatsAreMoments(es[0], !p.ReadAndCall?);
    AllFloatsAreMoments(es[1..], !p.ReadAndCall?);
  }

  /** The lexical order of a list with such a pair. */
  lemma HereInOrder(es: seq<GoExpr>, a: int, b: int, late: bool, p: Pair, odd: Value, c: Context, tr: Trace)
    requires ClashesHere(es, a, b, late, p) && TreeAll(es) && Trapped(c, Snare(a, b, late, p, odd)) && !Seen(tr, b)
    ensures EndsInOrder(InOrderAll(es, c, tr), a, b, late, p)
    ensures p.ReadAndCall? ==> Clean(InOrderAll(es, c, tr).x)
  {
    hide Probe;
    var t := Snare(a, b, late, p, odd);
    HereNodes(es, a, b, late, p);
    if p.ReadAndCall? {
      GoClean(es[0], t, c, tr);
      if !late { CallHappens(es[0], b, t, c, tr); }
      GoAllClean(es[1..], t, c, InOrder(es[0], c, tr).tr);
    } else if late {
      FallsAt(es[0], a, t, c, tr);
    } else if p.TwoPanics? {
      FallsAt(es[0], b, t, c, tr);
    } else {
      GoClean(es[0], t, c, tr);
      CallHappens(es[0], b, t, c, tr);
      FallsAtIn(es[1..], a, t, c, InOrder(es[0], c, tr).tr);
    }
  }

  lemma {:induction false} ClashInOrder(e: GoExpr, a: int, b: int, late: bool, p: Pair, odd: Value, c: Context, tr: Trace)
    requires Clashes(e, a, b, late, p) && Tree(e) && Trapped(c, Snare(a, b, late, p, odd)) && !Seen(tr, b)
    ensures EndsInOrder(InOrder(e, c, tr), a, b, late, p)
    ensures p.ReadAndCall? ==> InOrder(e, c, tr).x == Atom(0)
    decreases e, 1
  {
    hide Probe, Clean;
    var t := Snare(a, b, late, p, odd);
    match e
    case GoNode(id, k, operands) =>
      ClashAllNodes(operands, a, b, late, p);
      ClashAllInOrder(operands, a, b, late, p, odd, c, tr);
      if p.ReadAndCall? { FinishClean(e, t, c, InOrderAll(operands, c, tr)); }
    case GoLogic(_, left, right) =>
      if Clashes(left, a, b, late, p) {
        ClashNodes(left, a, b, late, p);
        ClashInOrder(left, a, b, late, p, odd, c, tr);
        if p.ReadAndCall? {
          EntersClean(e, t, c, tr);
          GoClean(right, t, c, InOrder(left, c, tr).tr);
        }
      } else {
        ClashNodes(right, a, b, late, p);
        GoClean(left, t, c, tr);
        EntersClean(e, t, c, tr);
        ClashInOrder(right, a, b, late, p, odd, c, InOrder(left, c, tr).tr);
      }
  }

  lemma FinishClean(e: GoExpr, t: Trap, c: Context, o: Out<seq<Value>>)
    requires e.GoNode? && Trapped(c, t) && e.id != t.x && e.id !in t.falls && o.Val? && Clean(o.x)
    ensures Finish(e.id, e.kind, o.x, c.w, o.tr).Val? && Finish(e.id, e.kind, o.x, c.w, o.tr).x == Atom(0)
  {
  }

  lemma EntersClean(e: GoExpr, t: Trap, c: Context, tr: Trace)
    requires e.GoLogic? && Trapped(c, t) && InOrder(e.left, c, tr).Val? && InOrder(e.left, c, tr).x == Atom(0)
    ensures InOrder(e, c, tr) == InOrder(e.right, c, InOrder(e.left, c, tr).tr)
  {
  }

  lemma {:induction false} ClashAllInOrder(
    es: seq<GoExpr>, a: int, b: int, late: bool, p: Pair, odd: Value, c: Context, tr: Trace)
    requires ClashesAll(es, a, b, late, p) && TreeAll(es) && Trapped(c, Snare(a, b, late, p, odd)) && !Seen(tr, b)
    ensures EndsInOrder(InOrderAll(es, c, tr), a, b, late, p)
    ensures p.ReadAndCall? ==> Clean(InOrderAll(es, c, tr).x)
    decreases es, 0
  {
    hide Probe, Clean;
    var t := Snare(a, b, late, p, odd);
    if Clashes(es[0], a, b, late, p) {
      ClashNodes(es[0], a, b, late, p);
      ClashInOrder(es[0], a, b, late, p, odd, c, tr);
      if p.ReadAndCall? {
        var o := InOrder(es[0], c, tr);
        GoAllClean(es[1..], t, c, o.tr);
        CleanCons(o.x, InOrderAll(es[1..], c, o.tr).x);
      }
    } else if ClashesAll(es[1..], a, b, late, p) {
      ClashAllNodes(es[1..], a, b, late, p);
      GoClean(es[0], t, c, tr);
      var o := InOrder(es[0], c, tr);
      ClashAllInOrder(es[1..], a, b, late, p, odd, c, o.tr);
      if p.ReadAndCall? { CleanCons(o.x, InOrderAll(es[1..], c, o.tr).x); }
    } else {
      HereInOrder(es, a, b, late, p, odd, c, tr);
    }
  }

  lemma CleanCons(v: Value, vs: seq<Value>)
    requires v == Atom(0) && Clean(vs)
    ensures Clean([v] + vs)
  {
  }

  /** The run in which a and b have changed places: it has panicked, or the read was odd. */
  ghost predicate Swapped(r: Option<Moment>, a: int, b: int, late: bool, p: Pair, odd: Value) {
    && r.Some?
    && if p.ReadAndCall? then r.value.Going? && a in r.value.m && r.value.m[a] == odd
       else r.value.Fell? && FellIn(!late, a, b, p, r.value.id, r.value.tr)
  }

  lemma Strike(es: seq<GoExpr>, s: seq<int>, a: int, b: int, late: bool, p: Pair, odd: Value, ok: bool, c: Context, m: Done, tr: Trace)
    returns (s': seq<int>)
    requires var r := RunAll(es, s, ok, c, m, tr);
             && r.Some? && r.value.Going?
             && LoadedAll(es, a, !p.ReadAndCall?, Snare(a, b, late, p, odd), c, r.value.m)
             && (Seen(r.value.tr, b) <==> late)
    requires a != b && (p.TwoPanics? ==> !late)
    ensures Swapped(RunAll(es, s', ok, c, m, tr), a, b, late, p, odd)
  {
    var r := RunAll(es, s, ok, c, m, tr).value;
    var t := Snare(a, b, late, p, odd);
    assert Strikes(FireAll(es, a, ok, c, r.m, r.tr), a, !p.ReadAndCall?, t, r.tr);
    OneMore(es, s, a, ok, c, m, tr);
    s' := s + [a];
  }

  /** Between head and tail: the late node waits for the tail, or the early one goes first. */
  lemma SwapHere(es: seq<GoExpr>, a: int, b: int, late: bool, p: Pair, odd: Value, c: Context, m: Done, tr: Trace)
    returns (s: seq<int>)
    requires ClashesHere(es, a, b, late, p) && TreeAll(es) && Trapped(c, Snare(a, b, late, p, odd)) && !Seen(tr, b)
    requires NoneOf(MomentsAll(es), m)
    ensures Swapped(RunAll(es, s, true, c, m, tr), a, b, late, p, odd)
  {
    hide Probe, Loaded, LoadedAll;
    var t := Snare(a, b, late, p, odd);
    var fails := !p.ReadAndCall?;
    HereNodes(es, a, b, late, p);
    if !late {
      var m';
      assert Off(t, MomentsAll(es[1..]) - {a});
      s, m' := EarlyRunIn(es[1..], a, fails, Complete(es[0], c, m), t, c, m, tr);
      RunTail(es, s, true, c, m, tr);
      LoadedInTail(es, a, fails, t, c, m');
      s := Strike(es, s, a, b, late, p, odd, true, c, m, tr);
    } else {
      var m1, tr1;
      s, m1, tr1 := SkipTo(es[0], a, fails, t, c, m, tr);
      RunHead(es, s, true, c, m, tr);
      if p.TwoPanics? {
        s := SwapPanics(es, s, a, b, odd, c, m, tr, m1, tr1);
      } else {
        var q, m2, tr2;
        q, m2, tr2 := LexicalAllClean(es[1..], true, t, c, m1, tr1);
        CallHappensIn(es[1..], b, t, c, tr1);
        RunTail(es, q, true, c, m1, tr1);
        RunThen(es, s, q, true, c, m, tr);
        LoadedInHead(es, a, fails, t, c, m1, m2);
        s := Strike(es, s + q, a, b, late, p, odd, true, c, m, tr);
      }
    }
  }

  /** The late node waits, and the tail panics. */
  lemma SwapPanics(
    es: seq<GoExpr>, s: seq<int>, a: int, b: int, odd: Value, c: Context, m: Done, tr: Trace, m1: Done, tr1: Trace)
    returns (s': seq<int>)
    requires ClashesHere(es, a, b, true, TwoPanics) && TreeAll(es) && Trapped(c, Snare(a, b, true, TwoPanics, odd))
    requires RunAll(es, s, true, c, m, tr) == Some(Going(m1, tr1)) && NoneOf(MomentsAll(es[1..]), m1) && Complete(es[0], c, m1)
    ensures Swapped(RunAll(es, s', true, c, m, tr), a, b, true, TwoPanics, odd)
  {
    hide Probe;
    HereNodes(es, a, b, true, TwoPanics);
    FallsAtIn(es[1..], b, Snare(a, b, true, TwoPanics, odd), c, tr1);
    var q := LexicalAll(es[1..], true, c, m1, tr1);
    RunTail(es, q, true, c, m1, tr1);
    RunThen(es, s, q, true, c, m, tr);
    s' := s + q;
  }

  lemma {:induction false} Swap(e: GoExpr, a: int, b: int, late: bool, p: Pair, odd: Value, c: Context, m: Done, tr: Trace)
    returns (s: seq<int>)
    requires Clashes(e, a, b, late, p) && Tree(e) && Trapped(c, Snare(a, b, late, p, odd)) && !Seen(tr, b)
    requires NoneOf(Moments(e), m)
    ensures Swapped(RunAll([e], s, true, c, m, tr), a, b, late, p, odd)
    decreases e, 1
  {
    hide Probe, Swapped;
    match e
    case GoNode(_, _, operands) =>
      s := SwapIn(operands, a, b, late, p, odd, c, m, tr);
      assert RunAll(operands, s, true, c, m, tr).Some? by { SwappedIsRun(RunAll(operands, s, true, c, m, tr), a, b, late, p, odd); }
      RunOperands(e, s, true, c, m, tr);
    case GoLogic(_, left, right) =>
      if Clashes(left, a, b, late, p) {
        s := Swap(left, a, b, late, p, odd, c, m, tr);
        SwappedIsRun(RunAll([left], s, true, c, m, tr), a, b, late, p, odd);
        RunLeft(e, s, true, c, m, tr);
      } else {
        s := SwapRight(e, a, b, late, p, odd, c, m, tr);
      }
  }

  lemma SwappedIsRun(r: Option<Moment>, a: int, b: int, late: bool, p: Pair, odd: Value)
    requires Swapped(r, a, b, late, p, odd)
    ensures r.Some?
  {
  }

  /** The left operand, the decision, and the two of the right operand. */
  lemma SwapRight(e: GoExpr, a: int, b: int, late: bool, p: Pair, odd: Value, c: Context, m: Done, tr: Trace)
    returns (s: seq<int>)
    requires e.GoLogic? && Clashes(e.right, a, b, late, p) && Tree(e)
    requires Trapped(c, Snare(a, b, late, p, odd)) && !Seen(tr, b) && NoneOf(Moments(e), m)
    ensures Swapped(RunAll([e], s, true, c, m, tr), a, b, late, p, odd)
    decreases e, 0
  {
    hide Swapped;
    var t := Snare(a, b, late, p, odd);
    ClashNodes(e.right, a, b, late, p);
    var m1, tr1;
    s, m1, tr1 := LexicalClean(e.left, true, t, c, m, tr);
    RunLeft(e, s, true, c, m, tr);
    FireOne(e, e.id, true, c, m1, tr1);
    OneMore([e], s, e.id, true, c, m, tr);
    var m2 := m1[e.id := Atom(0)];
    Local(e.left, c, m1, m2);
    var q := Swap(e.right, a, b, late, p, odd, c, m2, tr1);
    SwappedIsRun(RunAll([e.right], q, true, c, m2, tr1), a, b, late, p, odd);
    RunRight(e, q, true, c, m2, tr1);
    RunThen([e], s + [e.id], q, true, c, m, tr);
    s := s + [e.id] + q;
  }

  lemma {:induction false} SwapIn(
    es: seq<GoExpr>, a: int, b: int, late: bool, p: Pair, odd: Value, c: Context, m: Done, tr: Trace)
    returns (s: seq<int>)
    requires ClashesAll(es, a, b, late, p) && TreeAll(es) && Trapped(c, Snare(a, b, late, p, odd)) && !Seen(tr, b)
    requires NoneOf(MomentsAll(es), m)
    ensures Swapped(RunAll(es, s, true, c, m, tr), a, b, late, p, odd)
    decreases es, 0
  {
    hide Probe, Swapped;
    if Clashes(es[0], a, b, late, p) {
      s := Swap(es[0], a, b, late, p, odd, c, m, tr);
      SwappedIsRun(RunAll([es[0]], s, true, c, m, tr), a, b, late, p, odd);
      RunHead(es, s, true, c, m, tr);
    } else if ClashesAll(es[1..], a, b, late, p) {
      ClashAllNodes(es[1..], a, b, late, p);
      var m1, tr1;
      s, m1, tr1 := LexicalClean(es[0], true, Snare(a, b, late, p, odd), c, m, tr);
      RunHead(es, s, true, c, m, tr);
      var q := SwapIn(es[1..], a, b, late, p, odd, c, m1, tr1);
      SwappedIsRun(RunAll(es[1..], q, true, c, m1, tr1), a, b, late, p, odd);
      RunTail(es, q, true, c, m1, tr1);
      RunThen(es, s, q, true, c, m, tr);
      s := s + q;
    } else {
      s := SwapHere(es, a, b, late, p, odd, c, m, tr);
    }
  }

  // ---------------------------------------------------------------- what is odd is passed on

  /** A node with an odd operand is odd. */
  ghost predicate Passes(e: GoExpr, odd: Value, c: Context, m: Done)
    decreases e, 1
  {
    match e
    case GoNode(id, k, operands) =>
      && PassesAll(operands, odd, c, m)
      && (Timed(k) && id in m && !Clean(ValuesOf(operands, c, m)) ==> m[id] == odd)
    case GoLogic(id, left, right) => Passes(left, odd, c, m) && Passes(right, odd, c, m) && (id in m ==> m[id] == Atom(0))
    case _ => true
  }

  ghost predicate PassesAll(es: seq<GoExpr>, odd: Value, c: Context, m: Done)
    decreases es, 0
  {
    es != [] ==> Passes(es[0], odd, c, m) && PassesAll(es[1..], odd, c, m)
  }

  lemma {:induction false} PassesLocal(e: GoExpr, odd: Value, c: Context, m: Done, m': Done)
    requires Passes(e, odd, c, m) && Same(Moments(e), m, m')
    ensures Passes(e, odd, c, m')
    decreases e, 1
  {
    match e
    case GoNode(id, k, operands) =>
      LocalAll(operands, c, m, m');
      PassesAllLocal(operands, odd, c, m, m');
      assert Timed(k) ==> id in Moments(e);
    case GoLogic(id, left, right) =>
      PassesLocal(left, odd, c, m, m');
      PassesLocal(right, odd, c, m, m');
      assert id in Moments(e);
    case _ =>
  }

  lemma {:induction false} PassesAllLocal(es: seq<GoExpr>, odd: Value, c: Context, m: Done, m': Done)
    requires PassesAll(es, odd, c, m) && Same(MomentsAll(es), m, m')
    ensures PassesAll(es, odd, c, m')
    decreases es, 0
  {
    if es != [] { PassesLocal(es[0], odd, c, m, m'); PassesAllLocal(es[1..], odd, c, m, m'); }
  }

  lemma {:induction false} NothingPasses(e: GoExpr, odd: Value, c: Context)
    ensures Passes(e, odd, c, map[])
    decreases e, 1
  {
    match e
    case GoNode(_, _, operands) => NothingPassesAll(operands, odd, c);
    case GoLogic(_, left, right) => NothingPasses(left, odd, c); NothingPasses(right, odd, c);
    case _ =>
  }

  lemma {:induction false} NothingPassesAll(es: seq<GoExpr>, odd: Value, c: Context)
    ensures PassesAll(es, odd, c, map[])
    decreases es, 0
  {
    if es != [] { NothingPasses(es[0], odd, c); NothingPassesAll(es[1..], odd, c); }
  }

  /** In a world without panics a step succeeds and passes on what is odd. */
  lemma {:induction false} StepPasses(e: GoExpr, n: int, ok: bool, t: Trap, c: Context, m: Done, tr: Trace)
    requires Closed(e, c, m) && Tree(e) && Passes(e, t.odd, c, m) && Fire(e, n, ok, c, m, tr).Some?
    requires Trapped(c, t) && t.falls == {}
    ensures var o := Fire(e, n, ok, c, m, tr).value; o.Val? && Passes(e, t.odd, c, m[n := o.x])
    decreases e, 1
  {
    var o := Fire(e, n, ok, c, m, tr).value;
    FiresOnce(e, n, ok, c, m, tr);
    match e
    case GoNode(id, k, operands) =>
      if n == id && Timed(k) {
        LocalAll(operands, c, m, m[n := o.x]);
        PassesAllLocal(operands, t.odd, c, m, m[n := o.x]);
      } else {
        StepPassesAll(operands, n, ok, t, c, m, tr);
        assert Extends(m, m[n := o.x]);
        AllStay(operands, c, m, m[n := o.x]);
      }
    case GoLogic(id, left, right) =>
      if n == id {
        PassesLocal(left, t.odd, c, m, m[n := o.x]);
        PassesLocal(right, t.odd, c, m, m[n := o.x]);
      } else if Fire(left, n, ok, c, m, tr).Some? {
        FiresOnce(left, n, ok, c, m, tr);
        StepPasses(left, n, ok, t, c, m, tr);
        PassesLocal(right, t.odd, c, m, m[n := o.x]);
      } else {
        FiresOnce(right, n, ok, c, m, tr);
        StepPasses(right, n, ok, t, c, m, tr);
        PassesLocal(left, t.odd, c, m, m[n := o.x]);
      }
    case _ =>
  }

  lemma {:induction false} StepPassesAll(es: seq<GoExpr>, n: int, ok: bool, t: Trap, c: Context, m: Done, tr: Trace)
    requires ClosedAll(es, c, m) && TreeAll(es) && PassesAll(es, t.odd, c, m) && FireAll(es, n, ok, c, m, tr).Some?
    requires Trapped(c, t) && t.falls == {}
    ensures var o := FireAll(es, n, ok, c, m, tr).value; o.Val? && PassesAll(es, t.odd, c, m[n := o.x])
    decreases es, 0
  {
    var o := FireAll(es, n, ok, c, m, tr).value;
    if Fire(es[0], n, ok, c, m, tr).Some? {
      FiresOnce(es[0], n, ok, c, m, tr);
      StepPasses(es[0], n, ok, t, c, m, tr);
      PassesAllLocal(es[1..], t.odd, c, m, m[n := o.x]);
    } else {
      var ok' := ok && Complete(es[0], c, m);
      FiresOnceAll(es[1..], n, ok', c, m, tr);
      StepPassesAll(es[1..], n, ok', t, c, m, tr);
      PassesLocal(es[0], t.odd, c, m, m[n := o.x]);
    }
  }

  lemma {:induction false} RunPasses(es: seq<GoExpr>, s: seq<int>, ok: bool, t: Trap, c: Context, m: Done, tr: Trace)
    requires ClosedAll(es, c, m) && TreeAll(es) && PassesAll(es, t.odd, c, m) && RunAll(es, s, ok, c, m, tr).Some?
    requires Trapped(c, t) && t.falls == {}
    ensures var r := RunAll(es, s, ok, c, m, tr).value; r.Going? && PassesAll(es, t.odd, c, r.m)
    decreases |s|
  {
    hide Probe;
    if s != [] {
      StepPassesAll(es, s[0], ok, t, c, m, tr);
      var o := FireAll(es, s[0], ok, c, m, tr).value;
      StepKeepsAllClosed(es, s[0], o.x, ok, c, m, tr);
      RunPasses(es, s[1..], ok, t, c, m[s[0] := o.x], o.tr);
    }
  }

  /** So the value is odd. */
  lemma {:induction false} OddValue(e: GoExpr, a: int, t: Trap, c: Context, m: Done)
    requires Closed(e, c, m) && Passes(e, t.odd, c, m) && Has(e, c, m) && Trapped(c, t) && t.odd != Atom(0)
    requires a in Moments(e) && a in m && m[a] == t.odd
    ensures ValueOf(e, c, m) == t.odd
    decreases e, 1
  {
    match e
    case GoNode(id, k, operands) =>
      if !(Timed(k) && a == id) { OddValues(operands, a, t, c, m); }
    case GoLogic(id, left, right) =>
      if a in Moments(left) { OddValue(left, a, t, c, m); } else { OddValue(right, a, t, c, m); }
    case _ =>
  }

  lemma {:induction false} OddValues(es: seq<GoExpr>, a: int, t: Trap, c: Context, m: Done)
    requires ClosedAll(es, c, m) && PassesAll(es, t.odd, c, m) && HasAll(es, c, m) && Trapped(c, t) && t.odd != Atom(0)
    requires a in MomentsAll(es) && a in m && m[a] == t.odd
    ensures !Clean(ValuesOf(es, c, m))
    decreases es, 0
  {
    var vs := ValuesOf(es, c, m);
    if a in Moments(es[0]) {
      OddValue(es[0], a, t, c, m);
      assert vs[0] == t.odd;
    } else {
      OddValues(es[1..], a, t, c, m);
      assert vs[1..] == ValuesOf(es[1..], c, m);
    }
  }

  // ---------------------------------------------------------------- two schedules of a frame

  /** The end of a whole run in which the pair has changed places. */
  ghost predicate EndsSwapped(o: Option<Out<seq<Value>>>, a: int, b: int, late: bool, p: Pair) {
    && o.Some?
    && if p.ReadAndCall? then o.value.Val? && !Clean(o.value.x)
       else o.value.Panic? && FellIn(!late, a, b, p, o.value.id, o.value.tr)
  }

  /** Where a pair can change places, some schedule of the list ends otherwise. */
  lemma SomeScheduleSwaps(es: seq<GoExpr>, a: int, b: int, late: bool, p: Pair, odd: Value, c: Context, tr: Trace)
    returns (s: seq<int>)
    requires ClashesAll(es, a, b, late, p) && TreeAll(es) && Trapped(c, Snare(a, b, late, p, odd)) && !Seen(tr, b)
    requires odd != Atom(0)
    ensures EndsSwapped(Ends(es, s, c, tr), a, b, late, p)
    ensures p.ReadAndCall? && |es| == 1 ==> Ends(es, s, c, tr).value.x == [odd]
  {
    hide Probe;
    s := SwapIn(es, a, b, late, p, odd, c, map[], tr);
    ClashAllNodes(es, a, b, late, p);
    if p.ReadAndCall? { s := SwapEnds(es, s, a, b, late, odd, c, tr); }
  }

  lemma SwapEnds(es: seq<GoExpr>, s: seq<int>, a: int, b: int, late: bool, odd: Value, c: Context, tr: Trace)
    returns (s': seq<int>)
    requires TreeAll(es) && a in MomentsAll(es) && odd != Atom(0) && Trapped(c, Snare(a, b, late, ReadAndCall, odd))
    requires Swapped(RunAll(es, s, true, c, map[], tr), a, b, late, ReadAndCall, odd)
    ensures EndsSwapped(Ends(es, s', c, tr), a, b, late, ReadAndCall)
    ensures |es| == 1 ==> Ends(es, s', c, tr).value.x == [odd]
  {
    hide Probe;
    var t := Snare(a, b, late, ReadAndCall, odd);
    var r := RunAll(es, s, true, c, map[], tr).value;
    NothingYetAll(es, c, map[], tr);
    NothingPassesAll(es, odd, c);
    RunKeepsClosed(es, s, true, c, map[], tr);
    var q, r2 := Completes(es, c, r.m, r.tr);
    RunThen(es, s, q, true, c, map[], tr);
    s' := s + q;
    RunPasses(es, s', true, t, c, map[], tr);
    RunKeepsClosed(es, s', true, c, map[], tr);
    RunKeepsClosed(es, q, true, c, r.m, r.tr);
    OddValues(es, a, t, c, r2.m);
    if |es| == 1 {
      FireOne(es[0], a, true, c, r2.m, tr);
      HasOne(es[0], c, r2.m, tr);
      assert es == [es[0]];
      OddValue(es[0], a, t, c, r2.m);
    }
  }
}
