/** Schedules put together, and the lexical order as one of them. */
module GoSchedules {
  import opened Wrappers
  import opened TryHoisting
  import opened TryHoistingProofs
  import opened GoOrder
  import opened GoOrderProofs

  // ---------------------------------------------------------------- runs put together

  lemma {:induction false} RunThen(
    es: seq<GoExpr>, s1: seq<int>, s2: seq<int>, ok: bool, c: Context, m: Done, tr: Trace)
    requires var r := RunAll(es, s1, ok, c, m, tr); r.Some? && r.value.Going?
    ensures var r := RunAll(es, s1, ok, c, m, tr).value;
            RunAll(es, s1 + s2, ok, c, m, tr) == RunAll(es, s2, ok, c, r.m, r.tr)
    decreases |s1|
  {
    if s1 == [] {
      assert s1 + s2 == s2;
    } else {
      assert (s1 + s2)[0] == s1[0] && (s1 + s2)[1..] == s1[1..] + s2;
      var o := FireAll(es, s1[0], ok, c, m, tr).value;
      if o.Val? { RunThen(es, s1[1..], s2, ok, c, m[s1[0] := o.x], o.tr); }
    }
  }

  lemma OneMore(es: seq<GoExpr>, s: seq<int>, n: int, ok: bool, c: Context, m: Done, tr: Trace)
    requires var r := RunAll(es, s, ok, c, m, tr);
             r.Some? && r.value.Going? && FireAll(es, n, ok, c, r.value.m, r.value.tr).Some?
    requires var r := RunAll(es, s, ok, c, m, tr).value; !FireAll(es, n, ok, c, r.m, r.tr).value.Bail?
    ensures var r := RunAll(es, s, ok, c, m, tr).value;
            RunAll(es, s + [n], ok, c, m, tr) ==
            match FireAll(es, n, ok, c, r.m, r.tr).value
            case Val(v, tr') => Some(Going(r.m[n := v], tr'))
            case Panic(id, tr') => Some(Fell(id, tr'))
            case _ => None
  {
    RunThen(es, s, [n], ok, c, m, tr);
    assert [n][1..] == [];
  }

  /** A run of the head is one of the list. */
  lemma {:induction false} RunHead(es: seq<GoExpr>, s: seq<int>, ok: bool, c: Context, m: Done, tr: Trace)
    requires es != [] && RunAll([es[0]], s, ok, c, m, tr).Some?
    ensures RunAll(es, s, ok, c, m, tr) == RunAll([es[0]], s, ok, c, m, tr)
    decreases |s|
  {
    if s != [] {
      FireOne(es[0], s[0], ok, c, m, tr);
      var o := Fire(es[0], s[0], ok, c, m, tr).value;
      if o.Val? { RunHead(es, s[1..], ok, c, m[s[0] := o.x], o.tr); }
    }
  }

  lemma FireOne(e: GoExpr, n: int, ok: bool, c: Context, m: Done, tr: Trace)
    ensures FireAll([e], n, ok, c, m, tr) == Fire(e, n, ok, c, m, tr)
    ensures TreeAll([e]) == Tree(e) && MomentsAll([e]) == Moments(e) && OrdersAll([e]) == Orders(e)
  {
    assert [e][1..] == [];
  }

  lemma HasOne(e: GoExpr, c: Context, m: Done, tr: Trace)
    ensures HasAll([e], c, m) == Has(e, c, m) && ValuesOf([e], c, m) == [ValueOf(e, c, m)]
    ensures ClosedAll([e], c, m) == Closed(e, c, m) && CompleteAll([e], c, m) == Complete(e, c, m)
    ensures InOrderAll([e], c, tr) ==
            match InOrder(e, c, tr) case Val(v, tr') => Val([v], tr') case stop => Stopped(stop)
  {
    assert [e][1..] == [];
    assert OrdersAll([e][1..]) == {} && NoneOf(OrdersAll([e][1..]), m);
    assert CompleteAll([e][1..], c, m) && ClosedAll([e][1..], c, m) && HasAll([e][1..], c, m);
    var v := ValueOf(e, c, m);
    assert [v] + [] == [v];
    var o := InOrder(e, c, tr);
    if o.Val? {
      assert InOrderAll([e][1..], c, o.tr) == Val([], o.tr);
      assert [o.x] + [] == [o.x];
    }
  }

  /** A run of the tail is one of the list. */
  lemma {:induction false} RunTail(es: seq<GoExpr>, s: seq<int>, ok: bool, c: Context, m: Done, tr: Trace)
    requires es != [] && TreeAll(es) && RunAll(es[1..], s, ok && Complete(es[0], c, m), c, m, tr).Some?
    ensures RunAll(es, s, ok, c, m, tr) == RunAll(es[1..], s, ok && Complete(es[0], c, m), c, m, tr)
    decreases |s|
  {
    if s != [] {
      var ok' := ok && Complete(es[0], c, m);
      FiresOnceAll(es[1..], s[0], ok', c, m, tr);
      if Fire(es[0], s[0], ok, c, m, tr).Some? { FiresOnce(es[0], s[0], ok, c, m, tr); }
      var o := FireAll(es[1..], s[0], ok', c, m, tr).value;
      if o.Val? {
        Local(es[0], c, m, m[s[0] := o.x]);
        RunTail(es, s[1..], ok, c, m[s[0] := o.x], o.tr);
      }
    }
  }

  lemma {:induction false} RunOperands(e: GoExpr, s: seq<int>, ok: bool, c: Context, m: Done, tr: Trace)
    requires e.GoNode? && Tree(e) && RunAll(e.operands, s, ok, c, m, tr).Some?
    ensures RunAll([e], s, ok, c, m, tr) == RunAll(e.operands, s, ok, c, m, tr)
    decreases |s|
  {
    if s != [] {
      FireOne(e, s[0], ok, c, m, tr);
      FiresOnceAll(e.operands, s[0], ok, c, m, tr);
      var o := FireAll(e.operands, s[0], ok, c, m, tr).value;
      if o.Val? { RunOperands(e, s[1..], ok, c, m[s[0] := o.x], o.tr); }
    }
  }

  lemma {:induction false} RunLeft(e: GoExpr, s: seq<int>, ok: bool, c: Context, m: Done, tr: Trace)
    requires e.GoLogic? && Tree(e) && RunAll([e.left], s, ok, c, m, tr).Some?
    ensures RunAll([e], s, ok, c, m, tr) == RunAll([e.left], s, ok, c, m, tr)
    decreases |s|
  {
    if s != [] {
      FireOne(e, s[0], ok, c, m, tr);
      FireOne(e.left, s[0], ok, c, m, tr);
      FiresOnce(e.left, s[0], ok, c, m, tr);
      var o := Fire(e.left, s[0], ok, c, m, tr).value;
      if o.Val? { RunLeft(e, s[1..], ok, c, m[s[0] := o.x], o.tr); }
    }
  }

  lemma {:induction false} RunRight(e: GoExpr, s: seq<int>, ok: bool, c: Context, m: Done, tr: Trace)
    requires e.GoLogic? && Tree(e) && RunAll([e.right], s, ok, c, m, tr).Some?
    requires e.id in m && c.w.enters(e.id, ValueOf(e.left, c, m))
    ensures RunAll([e], s, ok, c, m, tr) == RunAll([e.right], s, ok, c, m, tr)
    decreases |s|
  {
    if s != [] {
      FireOne(e, s[0], ok, c, m, tr);
      FireOne(e.right, s[0], ok, c, m, tr);
      FiresOnce(e.right, s[0], ok, c, m, tr);
      if Fire(e.left, s[0], ok, c, m, tr).Some? { FiresOnce(e.left, s[0], ok, c, m, tr); }
      var o := Fire(e.right, s[0], ok, c, m, tr).value;
      if o.Val? {
        Local(e.left, c, m, m[s[0] := o.x]);
        RunRight(e, s[1..], ok, c, m[s[0] := o.x], o.tr);
      }
    }
  }

  // ---------------------------------------------------------------- the lexical order is a schedule

  /** m' has e done besides m. */
  ghost predicate Filled(e: GoExpr, c: Context, m: Done, m': Done) {
    Extends(m, m') && (forall i :: i in m' ==> i in m || i in Moments(e)) && Has(e, c, m') && Closed(e, c, m') && Complete(e, c, m')
  }

  ghost predicate FilledAll(es: seq<GoExpr>, c: Context, m: Done, m': Done) {
    && Extends(m, m') && (forall i :: i in m' ==> i in m || i in MomentsAll(es))
    && HasAll(es, c, m') && ClosedAll(es, c, m') && CompleteAll(es, c, m')
  }

  /** The schedule s takes the state from m to where the lexical order ends. */
  ghost predicate Follows(e: GoExpr, s: seq<int>, ok: bool, c: Context, m: Done, tr: Trace) {
    match InOrder(e, c, tr)
    case Val(v, tr') =>
      exists m' :: RunAll([e], s, ok, c, m, tr) == Some(Going(m', tr')) && Filled(e, c, m, m') && ValueOf(e, c, m') == v
    case Panic(id, tr') => RunAll([e], s, ok, c, m, tr) == Some(Fell(id, tr'))
    case Bail(_, _) => false
  }

  ghost predicate FollowsAll(es: seq<GoExpr>, s: seq<int>, ok: bool, c: Context, m: Done, tr: Trace) {
    match InOrderAll(es, c, tr)
    case Val(vs, tr') =>
      exists m' :: RunAll(es, s, ok, c, m, tr) == Some(Going(m', tr')) && FilledAll(es, c, m, m') && ValuesOf(es, c, m') == vs
    case Panic(id, tr') => RunAll(es, s, ok, c, m, tr) == Some(Fell(id, tr'))
    case Bail(_, _) => false
  }

  lemma {:induction false} Lexical(e: GoExpr, ok: bool, c: Context, m: Done, tr: Trace) returns (s: seq<int>)
    requires NoneOf(Moments(e), m) && Tree(e) && (ok || Orders(e) == {})
    ensures Follows(e, s, ok, c, m, tr)
    decreases e, 1
  {
    match e
    case GoLiteral(_) => s := [];
      assert RunAll([e], [], ok, c, m, tr) == Some(Going(m, tr)) && Filled(e, c, m, m);
    case GoPayload(_) => s := [];
      assert RunAll([e], [], ok, c, m, tr) == Some(Going(m, tr)) && Filled(e, c, m, m);
    case GoRead(id) => s := LexicalLeaf(e, id, ok, c, m, tr);
    case GoOpaque(id) => s := LexicalLeaf(e, id, ok, c, m, tr);
    case GoNode(id, k, operands) =>
      s := LexicalAll(operands, ok, c, m, tr);
      RunOperands(e, s, ok, c, m, tr);
      s := LexicalNode(e, s, ok, c, m, tr);
    case GoLogic(id, left, right) =>
      s := Lexical(left, ok, c, m, tr);
      RunLeft(e, s, ok, c, m, tr);
      s := LexicalLogic(e, s, ok, c, m, tr);
  }

  /** A read, or a call without operands. */
  lemma LexicalLeaf(e: GoExpr, id: int, ok: bool, c: Context, m: Done, tr: Trace) returns (s: seq<int>)
    requires (e.GoRead? || (e.GoOpaque? && ok)) && e.id == id && id !in m
    ensures Follows(e, s, ok, c, m, tr)
  {
    s := [id];
    assert s[1..] == [];
    FireOne(e, id, ok, c, m, tr);
    var o := Fire(e, id, ok, c, m, tr).value;
    if o.Val? {
      assert RunAll([e], s, ok, c, m, tr) == Some(Going(m[id := o.x], o.tr));
      assert Filled(e, c, m, m[id := o.x]);
    }
  }

  /** Behind its operands, the node. */
  lemma LexicalNode(e: GoExpr, s: seq<int>, ok: bool, c: Context, m: Done, tr: Trace) returns (s': seq<int>)
    requires e.GoNode? && NoneOf(Moments(e), m) && Tree(e) && (ok || Orders(e) == {})
    requires FollowsAll(e.operands, s, ok, c, m, tr) && RunAll([e], s, ok, c, m, tr) == RunAll(e.operands, s, ok, c, m, tr)
    ensures Follows(e, s', ok, c, m, tr)
  {
    s' := s;
    var o := InOrderAll(e.operands, c, tr);
    if o.Val? {
      var m1 :| RunAll(e.operands, s, ok, c, m, tr) == Some(Going(m1, o.tr))
                && FilledAll(e.operands, c, m, m1) && ValuesOf(e.operands, c, m1) == o.x;
      if Timed(e.kind) {
        assert e.id in Moments(e) && (e.kind.CallNode? ==> e.id in Orders(e));
        FireOne(e, e.id, ok, c, m1, o.tr);
        OneMore([e], s, e.id, ok, c, m, tr);
        s' := s + [e.id];
        var r := Finish(e.id, e.kind, o.x, c.w, o.tr);
        if r.Val? { Fills(e, c, m, m1, r.x); }
      } else {
        assert Filled(e, c, m, m1);
      }
    }
  }

  lemma Fills(e: GoExpr, c: Context, m: Done, m1: Done, v: Value)
    requires e.GoNode? && Tree(e) && Timed(e.kind) && NoneOf(Moments(e), m) && FilledAll(e.operands, c, m, m1)
    ensures Filled(e, c, m, m1[e.id := v])
  {
    var m' := m1[e.id := v];
    assert e.id in Moments(e) && e.id !in m1;
    LocalAll(e.operands, c, m1, m');
    ClosedAllLocal(e.operands, c, m1, m');
  }

  /** Behind the left operand, the decision, and the right operand where it is entered. */
  lemma LexicalLogic(e: GoExpr, s: seq<int>, ok: bool, c: Context, m: Done, tr: Trace) returns (s': seq<int>)
    requires e.GoLogic? && NoneOf(Moments(e), m) && Tree(e) && ok
    requires Follows(e.left, s, ok, c, m, tr) && RunAll([e], s, ok, c, m, tr) == RunAll([e.left], s, ok, c, m, tr)
    ensures Follows(e, s', ok, c, m, tr)
    decreases e, 0
  {
    s' := s;
    var o := InOrder(e.left, c, tr);
    if o.Val? {
      var m1 :| RunAll([e.left], s, ok, c, m, tr) == Some(Going(m1, o.tr))
                && Filled(e.left, c, m, m1) && ValueOf(e.left, c, m1) == o.x;
      var m2 := m1[e.id := Atom(0)];
      Decision(e, s, ok, c, m, m1, tr, o.tr);
      s' := s + [e.id];
      if c.w.enters(e.id, o.x) {
        var q := LexicalRight(e, ok, c, m, m2, o.tr);
        RunThen([e], s', q, ok, c, m, tr);
        s' := s' + q;
        var r := InOrder(e.right, c, o.tr);
        if r.Val? {
          var m3 :| RunAll([e], q, ok, c, m2, o.tr) == Some(Going(m3, r.tr)) && Filled(e, c, m, m3) && ValueOf(e, c, m3) == r.x;
          assert RunAll([e], s', ok, c, m, tr) == Some(Going(m3, r.tr));
        }
      }
    }
  }

  /** The decision, behind the left operand. */
  lemma Decision(e: GoExpr, s: seq<int>, ok: bool, c: Context, m: Done, m1: Done, tr: Trace, tr1: Trace)
    requires e.GoLogic? && NoneOf(Moments(e), m) && Tree(e) && ok
    requires RunAll([e], s, ok, c, m, tr) == Some(Going(m1, tr1)) && Filled(e.left, c, m, m1)
    ensures var m2 := m1[e.id := Atom(0)];
            && RunAll([e], s + [e.id], ok, c, m, tr) == Some(Going(m2, tr1))
            && Extends(m, m2) && (forall i :: i in m2 ==> i in m || i == e.id || i in Moments(e.left))
            && Has(e.left, c, m2) && Closed(e.left, c, m2) && Complete(e.left, c, m2)
            && ValueOf(e.left, c, m2) == ValueOf(e.left, c, m1)
            && (!c.w.enters(e.id, ValueOf(e.left, c, m1)) ==> Filled(e, c, m, m2))
  {
    var m2 := m1[e.id := Atom(0)];
    assert e.id in Moments(e) && e.id !in m1;
    FireOne(e, e.id, ok, c, m1, tr1);
    OneMore([e], s, e.id, ok, c, m, tr);
    Local(e.left, c, m1, m2);
    ClosedLocal(e.left, c, m1, m2);
    NothingYet(e.right, c, m2, tr1);
  }

  /** The right operand, once it is entered. */
  lemma LexicalRight(e: GoExpr, ok: bool, c: Context, m: Done, m2: Done, tr: Trace) returns (q: seq<int>)
    requires e.GoLogic? && Tree(e) && NoneOf(Moments(e), m) && ok && Extends(m, m2) && e.id in m2
    requires (forall i :: i in m2 ==> i in m || i == e.id || i in Moments(e.left))
    requires Has(e.left, c, m2) && Closed(e.left, c, m2) && Complete(e.left, c, m2)
    requires c.w.enters(e.id, ValueOf(e.left, c, m2))
    ensures match InOrder(e.right, c, tr)
            case Val(v, tr') =>
              exists m3 :: RunAll([e], q, ok, c, m2, tr) == Some(Going(m3, tr')) && Filled(e, c, m, m3) && ValueOf(e, c, m3) == v
            case Panic(id, tr') => RunAll([e], q, ok, c, m2, tr) == Some(Fell(id, tr'))
            case Bail(_, _) => false
    decreases e, 0, 0
  {
    q := Lexical(e.right, ok, c, m2, tr);
    RunRight(e, q, ok, c, m2, tr);
    var r := InOrder(e.right, c, tr);
    if r.Val? {
      var m3 :| RunAll([e.right], q, ok, c, m2, tr) == Some(Going(m3, r.tr))
                && Filled(e.right, c, m2, m3) && ValueOf(e.right, c, m3) == r.x;
      EntersRight(e, c, m, m2, m3);
    }
  }

  lemma EntersRight(e: GoExpr, c: Context, m: Done, m2: Done, m3: Done)
    requires e.GoLogic? && Tree(e) && NoneOf(Moments(e), m) && Extends(m, m2) && e.id in m2
    requires (forall i :: i in m2 ==> i in m || i == e.id || i in Moments(e.left))
    requires Has(e.left, c, m2) && Closed(e.left, c, m2) && Complete(e.left, c, m2)
    requires c.w.enters(e.id, ValueOf(e.left, c, m2)) && Filled(e.right, c, m2, m3)
    ensures Filled(e, c, m, m3) && ValueOf(e, c, m3) == ValueOf(e.right, c, m3)
  {
    assert Same(Moments(e.left), m2, m3);
    Local(e.left, c, m2, m3);
    ClosedLocal(e.left, c, m2, m3);
  }

  lemma {:induction false} LexicalAll(es: seq<GoExpr>, ok: bool, c: Context, m: Done, tr: Trace) returns (s: seq<int>)
    requires NoneOf(MomentsAll(es), m) && TreeAll(es) && (ok || OrdersAll(es) == {})
    ensures FollowsAll(es, s, ok, c, m, tr)
    decreases es, 0
  {
    if es == [] {
      s := [];
      assert RunAll(es, [], ok, c, m, tr) == Some(Going(m, tr)) && FilledAll(es, c, m, m);
    } else {
      s := Lexical(es[0], ok, c, m, tr);
      RunHead(es, s, ok, c, m, tr);
      var o := InOrder(es[0], c, tr);
      if o.Val? {
        var m1 :| RunAll([es[0]], s, ok, c, m, tr) == Some(Going(m1, o.tr))
                  && Filled(es[0], c, m, m1) && ValueOf(es[0], c, m1) == o.x;
        assert NoneOf(MomentsAll(es[1..]), m1);
        var q := LexicalAll(es[1..], ok, c, m1, o.tr);
        RunTail(es, q, ok, c, m1, o.tr);
        RunThen(es, s, q, ok, c, m, tr);
        s := s + q;
        var r := InOrderAll(es[1..], c, o.tr);
        if r.Val? {
          var m2 :| RunAll(es[1..], q, ok, c, m1, o.tr) == Some(Going(m2, r.tr))
                    && FilledAll(es[1..], c, m1, m2) && ValuesOf(es[1..], c, m2) == r.x;
          FillsBoth(es, c, m, m1, m2);
        }
      }
    }
  }

  lemma FillsBoth(es: seq<GoExpr>, c: Context, m: Done, m1: Done, m2: Done)
    requires es != [] && TreeAll(es) && NoneOf(MomentsAll(es), m)
    requires Filled(es[0], c, m, m1) && FilledAll(es[1..], c, m1, m2)
    ensures FilledAll(es, c, m, m2) && ValueOf(es[0], c, m2) == ValueOf(es[0], c, m1)
  {
    assert Same(Moments(es[0]), m1, m2);
    Local(es[0], c, m1, m2);
    ClosedLocal(es[0], c, m1, m2);
  }

  /** The lexical order is one of the schedules. */
  lemma LexicalEnds(es: seq<GoExpr>, c: Context, tr: Trace) returns (s: seq<int>)
    requires TreeAll(es)
    ensures Ends(es, s, c, tr) == Some(InOrderAll(es, c, tr))
  {
    s := LexicalAll(es, true, c, map[], tr);
  }

  // ---------------------------------------------------------------- every run can be finished

  lemma {:induction false} HasIsComplete(e: GoExpr, c: Context, m: Done)
    requires Closed(e, c, m) && Has(e, c, m)
    ensures Complete(e, c, m)
    decreases e, 1
  {
    match e
    case GoNode(_, _, operands) => HasAllIsComplete(operands, c, m);
    case GoLogic(id, left, right) =>
      HasIsComplete(left, c, m);
      if c.w.enters(id, ValueOf(left, c, m)) { HasIsComplete(right, c, m); }
    case _ =>
  }

  lemma {:induction false} HasAllIsComplete(es: seq<GoExpr>, c: Context, m: Done)
    requires ClosedAll(es, c, m) && HasAll(es, c, m)
    ensures CompleteAll(es, c, m)
    decreases es, 0
  {
    if es != [] { HasIsComplete(es[0], c, m); HasAllIsComplete(es[1..], c, m); }
  }

  /** While a value is missing, some node may happen. */
  lemma {:induction false} Enabled(e: GoExpr, c: Context, m: Done, tr: Trace) returns (n: int)
    requires Closed(e, c, m) && Tree(e) && !Has(e, c, m)
    ensures Fire(e, n, true, c, m, tr).Some?
    decreases e, 1
  {
    match e
    case GoRead(id) => n := id;
    case GoOpaque(id) => n := id;
    case GoNode(id, k, operands) =>
      if HasAll(operands, c, m) {
        n := id;
      } else {
        n := EnabledIn(operands, c, m, tr);
        FiresOnceAll(operands, n, true, c, m, tr);
      }
    case GoLogic(id, left, right) =>
      OrdersAreMoments(left);
      OrdersAreMoments(right);
      if !Has(left, c, m) {
        n := Enabled(left, c, m, tr);
        FiresOnce(left, n, true, c, m, tr);
      } else if id !in m {
        n := id;
      } else {
        n := Enabled(right, c, m, tr);
        FiresOnce(right, n, true, c, m, tr);
        NothingLeft(left, n, true, c, m, tr);
      }
  }

  lemma {:induction false} EnabledIn(es: seq<GoExpr>, c: Context, m: Done, tr: Trace) returns (n: int)
    requires ClosedAll(es, c, m) && TreeAll(es) && !HasAll(es, c, m)
    ensures FireAll(es, n, true, c, m, tr).Some?
    decreases es, 0
  {
    if !Has(es[0], c, m) {
      n := Enabled(es[0], c, m, tr);
    } else {
      n := EnabledIn(es[1..], c, m, tr);
      NothingLeft(es[0], n, true, c, m, tr);
      HasIsComplete(es[0], c, m);
    }
  }

  /** No order of what has happened leads nowhere: the rest of a run exists. */
  lemma {:induction false} Completes(es: seq<GoExpr>, c: Context, m: Done, tr: Trace)
    returns (s: seq<int>, r: Moment)
    requires ClosedAll(es, c, m) && TreeAll(es)
    ensures RunAll(es, s, true, c, m, tr) == Some(r) && (r.Going? ==> HasAll(es, c, r.m))
    decreases MomentsAll(es) - m.Keys
  {
    if HasAll(es, c, m) {
      s, r := [], Going(m, tr);
    } else {
      var n := EnabledIn(es, c, m, tr);
      FiresOnceAll(es, n, true, c, m, tr);
      var o := FireAll(es, n, true, c, m, tr).value;
      OneMore(es, [], n, true, c, m, tr);
      s := [] + [n];
      if o.Val? {
        StepKeepsAllClosed(es, n, o.x, true, c, m, tr);
        var q;
        assert n in MomentsAll(es) - m.Keys && MomentsAll(es) - m[n := o.x].Keys <= MomentsAll(es) - m.Keys;
        q, r := Completes(es, c, m[n := o.x], o.tr);
        RunThen(es, s, q, true, c, m, tr);
        s := s + q;
      } else {
        r := Fell(o.id, o.tr);
      }
    }
  }

  /** Along a run nothing is taken back. */
  lemma {:induction false} RunKeepsClosed(es: seq<GoExpr>, s: seq<int>, ok: bool, c: Context, m: Done, tr: Trace)
    requires ClosedAll(es, c, m) && TreeAll(es)
    requires var r := RunAll(es, s, ok, c, m, tr); r.Some? && r.value.Going?
    ensures var r := RunAll(es, s, ok, c, m, tr).value; ClosedAll(es, c, r.m) && Extends(m, r.m)
    decreases |s|
  {
    if s != [] {
      FiresOnceAll(es, s[0], ok, c, m, tr);
      var o := FireAll(es, s[0], ok, c, m, tr).value;
      StepKeepsAllClosed(es, s[0], o.x, ok, c, m, tr);
      RunKeepsClosed(es, s[1..], ok, c, m[s[0] := o.x], o.tr);
      ExtendsThen(m, m[s[0] := o.x], RunAll(es, s, ok, c, m, tr).value.m);
    }
  }

  /** Every run of some nodes is the beginning of a whole run. */
  lemma NoDeadEnd(es: seq<GoExpr>, s: seq<int>, c: Context, tr: Trace) returns (s': seq<int>)
    requires TreeAll(es) && RunAll(es, s, true, c, map[], tr).Some?
    ensures s <= s' && Ends(es, s', c, tr).Some?
  {
    s' := s;
    var r := RunAll(es, s, true, c, map[], tr).value;
    if r.Going? {
      NothingYetAll(es, c, map[], tr);
      RunKeepsClosed(es, s, true, c, map[], tr);
      var q, r2 := Completes(es, c, r.m, r.tr);
      RunThen(es, s, q, true, c, map[], tr);
      s' := s + q;
    }
  }
}
