/**
 Labelled breaks (internal/codegen/labeled_break.go). Go resolves a break statically, so
 this is a statement about the lowered code: which breaks leave the loop they left in
 the source, and which labels are used.
 */
module BreakLabels {
  import opened Wrappers
  import opened Patterns
  import opened Lowering

  // ---------------------------------------------------------------- what the scan should see

  /** A break of n that belongs to the loop around n is emitted inside a Go switch or select
      that is inside that loop; `inSwitch`: n itself is emitted inside one. */
  predicate Captured(n: Node, inSwitch: bool)
    decreases n, 1
  {
    match n
    case Break => inSwitch
    case Paren(inner) => Captured(inner, inSwitch)
    case Return(v) => v.Some? && v.value.Catch? && Captured(v.value, inSwitch)
    case Let(_, v) => v.Catch? && Captured(v, inSwitch)
    case Catch(_, _, _, handler) => Captured(handler, inSwitch)
    case Match(_, arms) => exists i :: 0 <= i < |arms| && Captured(arms[i].body, true)
    case If(_, _, thn, els) => Captured(thn, inSwitch) || (els.Some? && Captured(els.value, inSwitch))
    case Block(body) => CapturedBody(body, inSwitch)
    case Select(_, cases) => exists i :: 0 <= i < |cases| && Captured(cases[i], true)
    case _ => false
  }

  predicate CapturedBody(b: Body, inSwitch: bool)
    decreases b, 0
  {
    match b
    case End => false
    case Value(e) => Captured(e, inSwitch)
    case Stmt(s, rest) => Captured(s, inSwitch) || CapturedBody(rest, inSwitch)
  }

  /** Where n is emitted, a captured break has a label to go to. */
  predicate FrameServes(f: Frame, n: Node) {
    match f
    case NoLoop => !Captured(n, true)
    case InLoop(l, d) => Captured(n, d > 0) ==> l.Some?
  }

  predicate FrameServesBody(f: Frame, b: Body) {
    match f
    case NoLoop => !CapturedBody(b, true)
    case InLoop(l, d) => CapturedBody(b, d > 0) ==> l.Some?
  }

  /** The scan sees every captured break of every loop in n. */
  predicate ScansEnough(n: Node)
    decreases n, 1
  {
    match n
    case Loop(_, _, _, body) => (Captured(body, false) ==> Scan(body, false)) && ScansEnough(body)
    case Paren(inner) => ScansEnough(inner)
    case Return(v) => v.Some? ==> ScansEnough(v.value)
    case Let(_, v) => ScansEnough(v)
    case Catch(_, _, _, handler) => ScansEnough(handler)
    case Match(_, arms) => forall i :: 0 <= i < |arms| ==> ScansEnough(arms[i].body)
    case If(_, _, thn, els) => ScansEnough(thn) && (els.Some? ==> ScansEnough(els.value))
    case Block(body) => ScansEnoughBody(body)
    case Select(_, cases) => forall i :: 0 <= i < |cases| ==> ScansEnough(cases[i])
    case _ => true
  }

  predicate ScansEnoughBody(b: Body)
    decreases b, 0
  {
    match b
    case End => true
    case Value(e) => ScansEnough(e)
    case Stmt(s, rest) => ScansEnough(s) && ScansEnoughBody(rest)
  }

  // ---------------------------------------------------------------- how Go resolves a break

  /** A break to `target` leaves the innermost for loop. */
  predicate LeavesLoop(f: Frame, target: Option<int>) {
    f.InLoop? && (if target.None? then f.switchDepth == 0 else target == f.loopLabel)
  }

  /** Every break in the code leaves the for loop it is directly in. */
  predicate AllLeave(ss: seq<GoStmt>, f: Frame)
    decreases ss, 0
  {
    forall i :: 0 <= i < |ss| ==> Leaves(ss[i], f)
  }

  predicate Leaves(s: GoStmt, f: Frame)
    decreases s, 1
  {
    match s
    case GoBreak(target) => LeavesLoop(f, target)
    case GoBlock(body) => AllLeave(body, f)
    case GoIf(_, thn, els) => AllLeave(thn, f) && AllLeave(els, f)
    case GoSwitch(_, cases) => forall i :: 0 <= i < |cases| ==> AllLeave(cases[i].body, Deeper(f))
    case GoSelect(_, bodies) => forall i :: 0 <= i < |bodies| ==> AllLeave(bodies[i].code, Deeper(f))
    case GoFor(l, _, _, body) => AllLeave(body, InLoop(l, 0))
    case GoCatch(_, _, _, handler) => AllLeave(handler, f)
    case _ => true
  }

  /** A labelled break out of the for loop directly around the code. */
  predicate UsesLabel(ss: seq<GoStmt>)
    decreases ss, 0
  {
    exists i :: 0 <= i < |ss| && UsesLabelStmt(ss[i])
  }

  predicate UsesLabelStmt(s: GoStmt)
    decreases s, 1
  {
    match s
    case GoBreak(target) => target.Some?
    case GoBlock(body) => UsesLabel(body)
    case GoIf(_, thn, els) => UsesLabel(thn) || UsesLabel(els)
    case GoSwitch(_, cases) => exists i :: 0 <= i < |cases| && UsesLabel(cases[i].body)
    case GoSelect(_, bodies) => exists i :: 0 <= i < |bodies| && UsesLabel(bodies[i].code)
    case GoCatch(_, _, _, handler) => UsesLabel(handler)
    case _ => false
  }

  lemma AllLeaveConcat(a: seq<GoStmt>, b: seq<GoStmt>, f: Frame)
    ensures AllLeave(a + b, f) <==> AllLeave(a, f) && AllLeave(b, f)
    ensures UsesLabel(a + b) <==> UsesLabel(a) || UsesLabel(b)
  {
    var c := a + b;
    assert forall i :: 0 <= i < |a| ==> c[i] == a[i];
    assert forall i :: 0 <= i < |b| ==> c[|a| + i] == b[i];
    if AllLeave(c, f) {
      forall i | 0 <= i < |a| ensures Leaves(a[i], f) { assert Leaves(c[i], f); }
      forall i | 0 <= i < |b| ensures Leaves(b[i], f) { assert Leaves(c[|a| + i], f); }
    }
    if UsesLabel(a) { var i :| 0 <= i < |a| && UsesLabelStmt(a[i]); assert UsesLabelStmt(c[i]); }
    if UsesLabel(b) { var i :| 0 <= i < |b| && UsesLabelStmt(b[i]); assert UsesLabelStmt(c[|a| + i]); }
  }

  lemma One(s: GoStmt, f: Frame)
    ensures AllLeave([s], f) <==> Leaves(s, f)
    ensures UsesLabel([s]) <==> UsesLabelStmt(s)
  {
    assert [s][0] == s;
  }

  // ---------------------------------------------------------------- lowered breaks

  /** n is emitted under a switch or select of its loop. */
  predicate Inside(f: Frame) { f.InLoop? && f.switchDepth > 0 }

  /** The breaks of the code are right exactly when `ok`, and use the label of the frame
      exactly when there is one and a break is `captured`. */
  ghost predicate Right(ss: seq<GoStmt>, f: Frame, ok: bool, captured: bool) {
    && (AllLeave(ss, f) <==> ok)
    && (f.InLoop? ==> (UsesLabel(ss) <==> f.loopLabel.Some? && captured))
  }

  ghost predicate RightNode(ss: seq<GoStmt>, f: Frame, n: Node) {
    Right(ss, f, FrameServes(f, n) && ScansEnough(n), Captured(n, Inside(f)))
  }

  ghost predicate RightBody(ss: seq<GoStmt>, f: Frame, b: Body) {
    Right(ss, f, FrameServesBody(f, b) && ScansEnoughBody(b), CapturedBody(b, Inside(f)))
  }

  lemma OfBlock(n: Node, f: Frame)
    requires n.Block?
    ensures FrameServes(f, n) <==> FrameServesBody(f, n.stmts)
    ensures ScansEnough(n) <==> ScansEnoughBody(n.stmts)
    ensures forall inSwitch :: Captured(n, inSwitch) <==> CapturedBody(n.stmts, inSwitch)
    ensures forall ss :: RightNode(ss, f, n) <==> RightBody(ss, f, n.stmts)
  {
  }

  lemma {:induction false} SimpleHasNoBreak(n: Node, f: Frame)
    requires SimpleStmt(n).Some?
    ensures RightNode(SimpleStmt(n).value, f, n) && ScansEnough(n)
    ensures !Captured(n, true) && !Captured(n, false)
  {
    match n
    case Paren(inner) => SimpleHasNoBreak(inner, f);
    case Atom(_) => One(SimpleStmt(n).value[0], f);
    case Name(_) => One(SimpleStmt(n).value[0], f);
    case Call(_, _) => One(SimpleStmt(n).value[0], f);
  }

  lemma {:induction false} SimpleValueHasNoLoop(n: Node)
    requires SimpleValue(n).Some?
    ensures ScansEnough(n) && !n.Catch?
  {
    match n
    case Paren(inner) => SimpleValueHasNoLoop(inner);
    case _ =>
  }

  lemma CatchThen(c: Node, n: Node, f: Frame, code: seq<GoStmt>, last: GoStmt)
    requires c.Catch? && (n == Return(Some(c)) || (n.Let? && n.init == c))
    requires RightNode(code, f, c) && (last.GoReturn? || last.GoVar?)
    ensures RightNode(code + [last], f, n)
  {
    AllLeaveConcat(code, [last], f);
    One(last, f);
  }

  lemma IfBreaks(n: Node, f: Frame, a: seq<GoStmt>, b: seq<GoStmt>)
    requires n.If? && RightNode(a, f, n.thn)
    requires if n.els.Some? then RightNode(b, f, n.els.value) else b == []
    ensures RightNode([GoIf(n.cond, a, b)], f, n)
  {
    One(GoIf(n.cond, a, b), f);
  }

  lemma LoopBreaks(n: Node, f: Frame, code: seq<GoStmt>)
    requires n.Loop?
    requires RightNode(code, InLoop(if Scan(n.body, false) then Some(n.at) else None, 0), n.body)
    ensures RightNode([GoFor(if Scan(n.body, false) then Some(n.at) else None, n.head, n.name, code)], f, n)
  {
    One(GoFor(if Scan(n.body, false) then Some(n.at) else None, n.head, n.name, code), f);
  }

  /** The clauses of a switch against arms i, i + 1, … */
  ghost predicate ClausesRight(n: Node, i: nat, cases: seq<GoCase>, f: Frame)
    requires n.Match? && i <= |n.arms|
  {
    && |cases| == |n.arms| - i
    && (forall k :: i <= k < |n.arms| ==> RightNode(cases[k - i].body, f, n.arms[k].body))
  }

  lemma SwitchBreaks(n: Node, f: Frame, ids: seq<int>, cases: seq<GoCase>)
    requires n.Match? && ClausesRight(n, 0, cases, Deeper(f))
    ensures RightNode([GoSwitch(ids, cases)], f, n)
  {
    One(GoSwitch(ids, cases), f);
    var arms := n.arms;
    assert forall k :: 0 <= k < |arms| ==> RightNode(cases[k - 0].body, Deeper(f), arms[k].body);
    assert forall k :: 0 <= k < |arms| ==> RightNode(cases[k].body, Deeper(f), arms[k].body);
    assert FrameServes(f, n) <==> forall k :: 0 <= k < |arms| ==> FrameServes(Deeper(f), arms[k].body);
    if Leaves(GoSwitch(ids, cases), f) {
      forall k | 0 <= k < |arms| ensures FrameServes(Deeper(f), arms[k].body) && ScansEnough(arms[k].body) {
        assert AllLeave(cases[k].body, Deeper(f));
      }
    }
    if f.InLoop? {
      if UsesLabelStmt(GoSwitch(ids, cases)) {
        var k :| 0 <= k < |cases| && UsesLabel(cases[k].body);
        assert Captured(arms[k].body, true);
      }
      if f.loopLabel.Some? && Captured(n, true) {
        var k :| 0 <= k < |arms| && Captured(arms[k].body, true);
        assert UsesLabel(cases[k].body);
      }
    }
  }

  ghost predicate BodiesRight(n: Node, i: nat, bodies: seq<GoBody>, f: Frame)
    requires n.Select? && i <= |n.cases|
  {
    && |bodies| == |n.cases| - i
    && (forall k :: i <= k < |n.cases| ==> RightNode(bodies[k - i].code, f, n.cases[k]))
  }

  lemma SelectBreaks(n: Node, f: Frame, id: int, bodies: seq<GoBody>)
    requires n.Select? && BodiesRight(n, 0, bodies, Deeper(f))
    ensures RightNode([GoSelect(id, bodies)], f, n)
  {
    One(GoSelect(id, bodies), f);
    var cases := n.cases;
    assert forall k :: 0 <= k < |cases| ==> RightNode(bodies[k - 0].code, Deeper(f), cases[k]);
    assert forall k :: 0 <= k < |cases| ==> RightNode(bodies[k].code, Deeper(f), cases[k]);
    assert FrameServes(f, n) <==> forall k :: 0 <= k < |cases| ==> FrameServes(Deeper(f), cases[k]);
    if Leaves(GoSelect(id, bodies), f) {
      forall k | 0 <= k < |cases| ensures FrameServes(Deeper(f), cases[k]) && ScansEnough(cases[k]) {
        assert AllLeave(bodies[k].code, Deeper(f));
      }
    }
    if f.InLoop? {
      if UsesLabelStmt(GoSelect(id, bodies)) {
        var k :| 0 <= k < |bodies| && UsesLabel(bodies[k].code);
        assert Captured(cases[k], true);
      }
      if f.loopLabel.Some? && Captured(n, true) {
        var k :| 0 <= k < |cases| && Captured(cases[k], true);
        assert UsesLabel(bodies[k].code);
      }
    }
  }

  /** The lowered breaks of n are right exactly when the frame serves n and the scan of every
      loop in n sees enough; the label of the frame is used exactly when a break is captured. */
  lemma {:induction false} LoweredBreaks(n: Node, f: Frame, variants: Variants)
    requires Lower(n, f, variants).Some?
    ensures RightNode(Lower(n, f, variants).value, f, n)
    decreases n, 2
  {
    var code := Lower(n, f, variants).value;
    match n
    case Return(None) => One(code[0], f);
    case Return(Some(v)) =>
      if v.Catch? {
        LoweredCatchBreaks(v, f, variants);
        CatchThen(v, n, f, LowerCatch(v, f, variants).value, GoReturn(PayloadOf(v.at)));
      } else {
        SimpleValueHasNoLoop(v);
        One(code[0], f);
      }
    case Catch(_, _, _, _) => LoweredCatchBreaks(n, f, variants);
    case Break => One(code[0], f);
    case Continue => One(code[0], f);
    case Match(on, arms) =>
      var heads := LowerPatterns(PatternsOf(arms), Shape(on), variants).value;
      LoweredArmsBreaks(n, 0, heads, Deeper(f), variants);
      SwitchBreaks(n, f, Ids(on), LowerArmBodies(n, 0, heads, Deeper(f), variants).value);
    case Block(body) =>
      LoweredBodyBreaks(body, f, variants);
      OfBlock(n, f);
      One(code[0], f);
    case If(_, _, _, _) => LoweredIfBreaks(n, f, variants);
    case Let(x, init) =>
      if init.Catch? {
        LoweredCatchBreaks(init, f, variants);
        CatchThen(init, n, f, LowerCatch(init, f, variants).value, GoVar(x, PayloadOf(init.at)));
      } else {
        SimpleValueHasNoLoop(init);
        One(code[0], f);
      }
    case Loop(at, head, name, body) =>
      var inner := InLoop(if Scan(body, false) then Some(at) else None, 0);
      OfBlock(body, inner);
      LoweredBodyBreaks(body.stmts, inner, variants);
      LoopBreaks(n, f, LowerBody(body.stmts, inner, variants).value);
    case Select(id, cases) =>
      LoweredCasesBreaks(n, 0, Deeper(f), variants);
      SelectBreaks(n, f, id, LowerCases(n, 0, Deeper(f), variants).value);
    case _ => SimpleHasNoBreak(n, f);
  }

  lemma {:induction false} LoweredIfBreaks(n: Node, f: Frame, variants: Variants)
    requires n.If? && Lower(n, f, variants).Some?
    ensures RightNode(Lower(n, f, variants).value, f, n)
    decreases n, 1
  {
    OfBlock(n.thn, f);
    LoweredBodyBreaks(n.thn.stmts, f, variants);
    if n.els.Some? {
      if n.els.value.Block? {
        OfBlock(n.els.value, f);
        LoweredBodyBreaks(n.els.value.stmts, f, variants);
      } else {
        LoweredBreaks(n.els.value, f, variants);
      }
    }
    IfBreaks(n, f, LowerBody(n.thn.stmts, f, variants).value, LowerElse(n.kind, n.els, f, variants).value);
  }

  lemma {:induction false} LoweredCatchBreaks(n: Node, f: Frame, variants: Variants)
    requires n.Catch? && LowerCatch(n, f, variants).Some?
    ensures RightNode(LowerCatch(n, f, variants).value, f, n)
    decreases n, 0
  {
    OfBlock(n.handler, f);
    LoweredBodyBreaks(n.handler.stmts, f, variants);
    One(LowerCatch(n, f, variants).value[0], f);
  }

  lemma {:induction false} LoweredBodyBreaks(b: Body, f: Frame, variants: Variants)
    requires LowerBody(b, f, variants).Some?
    ensures RightBody(LowerBody(b, f, variants).value, f, b)
    decreases b, 0
  {
    match b
    case End =>
    case Value(e) => LoweredBreaks(e, f, variants);
    case Stmt(s, rest) =>
      LoweredBreaks(s, f, variants);
      LoweredBodyBreaks(rest, f, variants);
      AllLeaveConcat(Lower(s, f, variants).value, LowerBody(rest, f, variants).value, f);
  }

  lemma {:induction false} LoweredArmsBreaks(n: Node, i: nat, heads: seq<(Test, seq<Bind>)>, f: Frame, variants: Variants)
    requires n.Match? && i <= |n.arms| == |heads| && LowerArmBodies(n, i, heads, f, variants).Some?
    ensures ClausesRight(n, i, LowerArmBodies(n, i, heads, f, variants).value, f)
    decreases n, 1, |heads| - i
  {
    if i < |heads| {
      LoweredBreaks(n.arms[i].body, f, variants);
      LoweredArmsBreaks(n, i + 1, heads, f, variants);
    }
  }

  lemma {:induction false} LoweredCasesBreaks(n: Node, i: nat, f: Frame, variants: Variants)
    requires n.Select? && i <= |n.cases| && LowerCases(n, i, f, variants).Some?
    ensures BodiesRight(n, i, LowerCases(n, i, f, variants).value, f)
    decreases n, 1, |n.cases| - i
  {
    if i < |n.cases| {
      OfBlock(n.cases[i], f);
      LoweredBodyBreaks(n.cases[i].stmts, f, variants);
      LoweredCasesBreaks(n, i + 1, f, variants);
    }
  }

  // ---------------------------------------------------------------- main results

  /** A lowered loop: every break under it leaves the loop it left in the source if and only if
      the scan of each loop sees the breaks that are captured; and its label is there exactly
      when some break uses it if and only if, besides, the scan sees no more than those. */
  lemma LabelsAreExact(n: Node, f: Frame, variants: Variants)
    requires n.Loop? && Lower(n, f, variants).Some?
    ensures var code := Lower(n, f, variants).value;
            && |code| == 1 && code[0].GoFor?
            && (AllLeave(code, f) <==> ScansEnough(n))
            && ((code[0].loopLabel.Some? <==> UsesLabel(code[0].body)) <==> (Scan(n.body, false) ==> Captured(n.body, false)))
  {
    var l := if Scan(n.body, false) then Some(n.at) else None;
    LoweredBreaks(n, f, variants);
    OfBlock(n.body, InLoop(l, 0));
    LoweredBodyBreaks(n.body.stmts, InLoop(l, 0), variants);
  }

  /** No catch and no else-if of an expression, outside nested loops. */
  predicate ScannerDomain(n: Node)
    decreases n, 1
  {
    match n
    case Catch(_, _, _, _) => false
    case Return(v) => v.Some? ==> !v.value.Catch?
    case Let(_, v) => !v.Catch?
    case Match(_, arms) => forall i :: 0 <= i < |arms| ==> ScannerDomain(arms[i].body)
    case If(kind, _, thn, els) =>
      ScannerDomain(thn) && (els.Some? ==> (kind.IfExpr? ==> els.value.Block?) && ScannerDomain(els.value))
    case Block(body) => ScannerDomainBody(body)
    case Select(_, cases) => forall i :: 0 <= i < |cases| ==> ScannerDomain(cases[i])
    case _ => true
  }

  predicate ScannerDomainBody(b: Body)
    decreases b, 0
  {
    match b
    case End => true
    case Value(e) => ScannerDomain(e)
    case Stmt(s, rest) => ScannerDomain(s) && ScannerDomainBody(rest)
  }

  /** In that domain the static scan and the run-time switch depth agree on every loop body. */
  lemma {:induction false} ScanIsExact(n: Node, inSwitch: bool, f: Frame, variants: Variants)
    requires ScannerDomain(n) && Lower(n, f, variants).Some?
    ensures Scan(n, inSwitch) <==> Captured(n, inSwitch)
    decreases n, 2
  {
    match n
    case Match(on, arms) =>
      var heads := LowerPatterns(PatternsOf(arms), Shape(on), variants).value;
      ScanArmsExact(n, 0, heads, Deeper(f), variants);
    case Block(body) => ScanBodyExact(body, inSwitch, f, variants);
    case If(kind, _, thn, els) =>
      ScanBodyExact(thn.stmts, inSwitch, f, variants);
      OfBlock(thn, f);
      assert Scan(thn, inSwitch) <==> ScanBody(thn.stmts, inSwitch);
      if els.Some? {
        if els.value.Block? {
          OfBlock(els.value, f);
          ScanBodyExact(els.value.stmts, inSwitch, f, variants);
          assert Scan(els.value, inSwitch) <==> ScanBody(els.value.stmts, inSwitch);
        } else {
          ScanIsExact(els.value, inSwitch, f, variants);
        }
      }
    case Select(_, cases) => ScanCasesExact(n, 0, Deeper(f), variants);
    case Paren(_) => SimpleHasNoBreak(n, f);
    case _ =>
  }

  lemma {:induction false} ScanBodyExact(b: Body, inSwitch: bool, f: Frame, variants: Variants)
    requires ScannerDomainBody(b) && LowerBody(b, f, variants).Some?
    ensures ScanBody(b, inSwitch) <==> CapturedBody(b, inSwitch)
    decreases b, 0
  {
    match b
    case End =>
    case Value(e) => ScanIsExact(e, inSwitch, f, variants);
    case Stmt(s, rest) => ScanIsExact(s, inSwitch, f, variants); ScanBodyExact(rest, inSwitch, f, variants);
  }

  lemma {:induction false} ScanArmsExact(n: Node, i: nat, heads: seq<(Test, seq<Bind>)>, f: Frame, variants: Variants)
    requires n.Match? && ScannerDomain(n) && i <= |n.arms| == |heads| && LowerArmBodies(n, i, heads, f, variants).Some?
    ensures forall k :: i <= k < |n.arms| ==> (Scan(n.arms[k].body, true) <==> Captured(n.arms[k].body, true))
    decreases n, 1, |heads| - i
  {
    if i < |heads| {
      ScanIsExact(n.arms[i].body, true, f, variants);
      ScanArmsExact(n, i + 1, heads, f, variants);
    }
  }

  lemma {:induction false} ScanCasesExact(n: Node, i: nat, f: Frame, variants: Variants)
    requires n.Select? && ScannerDomain(n) && i <= |n.cases| && LowerCases(n, i, f, variants).Some?
    ensures forall k :: i <= k < |n.cases| ==> (Scan(n.cases[k], true) <==> Captured(n.cases[k], true))
    decreases n, 1, |n.cases| - i
  {
    if i < |n.cases| {
      ScanBodyExact(n.cases[i].stmts, true, f, variants);
      ScanCasesExact(n, i + 1, f, variants);
    }
  }

  // ---------------------------------------------------------------- where the scan and the emitter part

  function Just(n: Node): Node { Block(Value(n)) }

  /** The break scan, and what it should see, treat the two alike. */
  predicate SameBreaks(a: Node, aInSwitch: bool, b: Node, bInSwitch: bool) {
    (Scan(a, aInSwitch) <==> Scan(b, bInSwitch)) && (Captured(a, aInSwitch) <==> Captured(b, bInSwitch))
  }

  lemma JustIs(n: Node, f: Frame)
    requires Lower(n, f, map[]).Some?
    ensures LowerBody(Value(n), f, map[]).Some? && Just(n).stmts == Value(n)
  {
  }

  lemma JustScan(n: Node, inSwitch: bool)
    ensures Scan(Just(n), inSwitch) <==> Scan(n, inSwitch)
  {
    assert Scan(Just(n), inSwitch) == ScanBody(Value(n), inSwitch);
  }

  lemma JustCaptured(n: Node, inSwitch: bool)
    ensures Captured(Just(n), inSwitch) <==> Captured(n, inSwitch)
  {
    assert Captured(Just(n), inSwitch) == CapturedBody(Value(n), inSwitch);
  }

  lemma JustBreaks(n: Node)
    ensures SameBreaks(Just(n), true, n, true) && SameBreaks(Just(n), false, n, false)
    ensures ScansEnough(Just(n)) <==> ScansEnough(n)
  {
    JustScan(n, true);
    JustScan(n, false);
    JustCaptured(n, true);
    JustCaptured(n, false);
    JustEnough(n);
  }

  lemma JustEnough(n: Node)
    ensures ScansEnough(Just(n)) <==> ScansEnough(n)
  {
    assert ScansEnough(Just(n)) == ScansEnoughBody(Value(n));
  }

  function OneArm(arm: Node): Node { Match(Subject.One(1), [Arm(Wildcard, arm)]) }

  /** A loop whose body is `match x { _ => arm }`. */
  function LoopOver(arm: Node): Node { Loop(0, 0, "_", Just(OneArm(arm))) }

  lemma OneArmIs(arm: Node, f: Frame)
    requires Lower(arm, Deeper(f), map[]).Some?
    ensures Lower(OneArm(arm), f, map[]).Some?
  {
    var m := OneArm(arm);
    assert m.arms[0].body == arm;
    var ps := PatternsOf(m.arms);
    assert ps == [Wildcard] && ps[1..] == [];
    var heads := [(Default, [])] + [];
    assert LowerArms(ps, Single, map[]) == Some(heads);
    assert !SwitchesOnTag(Wildcard, map[]) && !SwitchesOnValue(Wildcard);
    assert LowerPatterns(ps, Single, map[]) == Some(heads);
    assert LowerArmBodies(m, 1, heads, Deeper(f), map[]) == Some([]);
    assert LowerArmBodies(m, 0, heads, Deeper(f), map[]).Some?;
  }

  lemma OneArmBreaks(arm: Node)
    ensures SameBreaks(OneArm(arm), true, arm, true) && SameBreaks(OneArm(arm), false, arm, true)
    ensures ScansEnough(OneArm(arm)) <==> ScansEnough(arm)
  {
    assert OneArm(arm).arms[0].body == arm;
  }

  function LoopFrame(at: int, body: Node): Frame { InLoop(if Scan(body, false) then Some(at) else None, 0) }

  lemma LoopLowers(at: int, body: Node)
    requires body.Block? && LowerBody(body.stmts, LoopFrame(at, body), map[]).Some?
    ensures var code := Lower(Loop(at, 0, "_", body), NoLoop, map[]);
            code.Some? && |code.value| == 1 && code.value[0].GoFor? && code.value[0].loopLabel == LoopFrame(at, body).loopLabel
    ensures ScansEnough(Loop(at, 0, "_", body)) <==> (Captured(body, false) ==> Scan(body, false)) && ScansEnough(body)
  {
  }

  lemma LoopBody(arm: Node, f: Frame)
    requires Lower(arm, Deeper(f), map[]).Some?
    ensures LowerBody(Just(OneArm(arm)).stmts, f, map[]).Some?
  {
    OneArmIs(arm, f);
    JustIs(OneArm(arm), f);
  }

  lemma LoopBodyBreaks(arm: Node)
    ensures SameBreaks(Just(OneArm(arm)), false, arm, true) && (ScansEnough(Just(OneArm(arm))) <==> ScansEnough(arm))
  {
    hide Scan, Captured, ScansEnough;
    OneArmBreaks(arm);
    JustScan(OneArm(arm), false);
    JustCaptured(OneArm(arm), false);
    JustEnough(OneArm(arm));
  }

  lemma LoopOverIs(arm: Node)
    requires Lower(arm, InLoop(if Scan(arm, true) then Some(0) else None, 1), map[]).Some?
    ensures Lower(LoopOver(arm), NoLoop, map[]).Some?
    ensures ScansEnough(LoopOver(arm)) <==> (Captured(arm, true) ==> Scan(arm, true)) && ScansEnough(arm)
  {
    LoopBodyBreaks(arm);
    LoopBody(arm, LoopFrame(0, Just(OneArm(arm))));
    LoopLowers(0, Just(OneArm(arm)));
  }

  /** `match x { _ => if c { } else if d { break } }` in a loop: the scan does not enter the
      else-if of an expression, and the break leaves the Go switch instead of the loop. */
  lemma ElseIfBreakIsMissed()
    ensures var n := LoopOver(If(IfExpr, 2, Block(End), Some(If(IfExpr, 3, Just(Break), None))));
            Lower(n, NoLoop, map[]).Some? && !ScansEnough(n) && !AllLeave(Lower(n, NoLoop, map[]).value, NoLoop)
  {
    var arm := If(IfExpr, 2, Block(End), Some(If(IfExpr, 3, Just(Break), None)));
    ElseIfArm(arm, InLoop(None, 1));
    LoopOverIs(arm);
    LabelsAreExact(LoopOver(arm), NoLoop, map[]);
  }

  /** The scan of an else-if chain of expressions stops at the first branch. */
  lemma ElseIfIs(thn: Node, inner: Node, f: Frame)
    requires thn.Block? && LowerBody(thn.stmts, f, map[]).Some? && inner.If? && inner.kind.IfExpr? && Lower(inner, f, map[]).Some?
    ensures var arm := If(IfExpr, 2, thn, Some(inner));
            && Lower(arm, f, map[]).Some?
            && (Scan(arm, true) <==> Scan(thn, true))
            && (Captured(arm, true) <==> Captured(thn, true) || Captured(inner, true))
  {
  }

  lemma NothingToScan(f: Frame)
    ensures LowerBody(Block(End).stmts, f, map[]).Some? && !Scan(Block(End), true)
  {
    assert !ScanBody(End, true);
  }

  lemma ElseIfArm(arm: Node, f: Frame)
    requires arm == If(IfExpr, 2, Block(End), Some(If(IfExpr, 3, Just(Break), None)))
    ensures Lower(arm, f, map[]).Some? && !Scan(arm, true) && Captured(arm, true)
  {
    ElseIfInner(arm.els.value, f);
    NothingToScan(f);
    ElseIfIs(Block(End), arm.els.value, f);
  }

  lemma JustBreak(f: Frame)
    ensures LowerBody(Just(Break).stmts, f, map[]).Some?
    ensures Captured(Just(Break), true) && !Captured(Just(Break), false)
  {
    assert Lower(Break, f, map[]).Some? && Captured(Break, true) && !Captured(Break, false);
    assert LowerBody(Value(Break), f, map[]).Some? && CapturedBody(Value(Break), true) && !CapturedBody(Value(Break), false);
  }

  lemma ElseIfInner(inner: Node, f: Frame)
    requires inner == If(IfExpr, 3, Just(Break), None)
    ensures Lower(inner, f, map[]).Some? && Captured(inner, true)
  {
    JustBreak(f);
    assert LowerElse(IfExpr, None, f, map[]) == Some([]);
  }

  /** `match x { _ => { let y = f() catch e { break } } }` in a loop: the scan does not enter
      initialisers, but the handler is emitted in place, inside the Go switch. */
  lemma CatchBreakIsMissed()
    ensures var n := LoopOver(Just(Let("y", CatchBreak(2))));
            Lower(n, NoLoop, map[]).Some? && !ScansEnough(n) && !AllLeave(Lower(n, NoLoop, map[]).value, NoLoop)
  {
    var arm := Just(Let("y", CatchBreak(2)));
    CatchArm(arm, InLoop(None, 1));
    LoopOverIs(arm);
    LabelsAreExact(LoopOver(arm), NoLoop, map[]);
  }

  function CatchBreak(at: int): Node { Catch(at, at, "e", Just(Break)) }

  lemma CatchBreakIs(at: int, f: Frame)
    ensures LowerCatch(CatchBreak(at), f, map[]).Some?
    ensures Scan(CatchBreak(at), true) && Scan(CatchBreak(at), false)
    ensures Captured(CatchBreak(at), true) && !Captured(CatchBreak(at), false)
  {
    JustBreak(f);
    assert Scan(Break, true) && ScanBody(Value(Break), true) && Scan(Just(Break), true);
  }

  lemma CatchArm(arm: Node, f: Frame)
    requires arm == Just(Let("y", CatchBreak(2)))
    ensures Lower(arm, f, map[]).Some? && !Scan(arm, true) && Captured(arm, true)
  {
    var init := Let("y", CatchBreak(2));
    CatchBreakIs(2, f);
    assert Lower(init, f, map[]).Some?;
    assert !Scan(init, true) && Captured(init, true);
    JustIs(init, f);
    JustBreaks(init);
  }

  /** `f() catch e { break }` directly in a loop: the scan takes the catch for a switch, so the
      loop gets a label that nothing uses, which Go rejects. */
  lemma CatchLabelIsUnused()
    ensures var n := Loop(0, 0, "_", Just(CatchBreak(1)));
            && Lower(n, NoLoop, map[]).Some?
            && var s := Lower(n, NoLoop, map[]).value[0];
               s.GoFor? && s.loopLabel.Some? && !UsesLabel(s.body)
  {
    var c := CatchBreak(1);
    var f := LoopFrame(0, Just(c));
    CatchBreakIs(1, f);
    JustIs(c, f);
    JustBreaks(c);
    LoopLowers(0, Just(c));
    LabelsAreExact(Loop(0, 0, "_", Just(c)), NoLoop, map[]);
  }
}
