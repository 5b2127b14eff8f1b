/** Running the lowered statements is running the source. */
module LoweringProofs {
  import opened Wrappers
  import opened Patterns
  import PatternProofs
  import opened Lowering
  import opened BreakLabels
  import opened Divergence

  // ---------------------------------------------------------------- the domain

  /** Sema's checks and the exact conditions of the parts, where the variables `bound` are in
      scope: handlers of a catch diverge (E0409), and no callee they rely on is shadowed; no case
      after a default clause is live, alternatives are plain, and the scan of every loop sees
      the breaks that are captured. */
  ghost predicate Healthy(n: Node, bound: set<string>, variants: Variants)
    decreases n, 1
  {
    match n
    case Paren(inner) => Healthy(inner, bound, variants)
    case Return(v) => v.Some? ==> Healthy(v.value, bound, variants)
    case Let(_, v) => Healthy(v, bound, variants)
    case Catch(_, _, name, handler) => handler.Block? && BlockDiverges(handler.stmts)
                                       && !Escapes(handler.stmts, Below(name, bound), variants)
                                       && HealthyBody(handler.stmts, Below(name, bound), variants)
    case Match(on, arms) => HealthyMatch(on, PatternsOf(arms), variants) &&
                            forall i :: 0 <= i < |arms| ==> Healthy(arms[i].body, bound + Vars(arms[i].pattern), variants)
    case If(_, _, thn, els) => Healthy(thn, bound, variants) && (els.Some? ==> Healthy(els.value, bound, variants))
    case Block(body) => HealthyBody(body, bound, variants)
    case Loop(_, _, name, body) => (Captured(body, false) ==> Scan(body, false)) && Healthy(body, Below(name, bound), variants)
    case Select(_, cases) => forall i :: 0 <= i < |cases| ==> Healthy(cases[i], bound, variants)
    case _ => true
  }

  ghost predicate HealthyBody(b: Body, bound: set<string>, variants: Variants)
    decreases b, 0
  {
    match b
    case End => true
    case Value(e) => Healthy(e, bound, variants)
    case Stmt(s, rest) => Healthy(s, bound, variants) && HealthyBody(rest, Behind(s, bound), variants)
  }

  ghost predicate HealthyMatch(on: Subject, ps: seq<Pattern>, variants: Variants) {
    && (forall p :: p in ps ==> PatternProofs.PlainAlternatives(p))
    && (LowerPatterns(ps, Shape(on), variants).Some? ==>
          PatternProofs.NothingLiveAfterDefault(Tests(LowerPatterns(ps, Shape(on), variants).value)))
  }

  // ---------------------------------------------------------------- agreement

  /** What a statement that leaves the variables `env` may do in Go when the source does r. */
  ghost predicate Agrees(r: Res, g: GoRes, f: Frame, env: Env) {
    match r
    case Norm(_, tr) => g.GoNorm? && g.env == env && g.tr == tr
    case Ret(v, tr) => g == GoRet(v, tr)
    case Brk(tr) => g.GoBrk? && g.tr == tr && LeavesLoop(f, g.loopLabel)
    case Cont(tr) => g == GoCont(tr)
    case Panicked(tr) => g == GoPanicked(tr)
    case OutOfFuel => g == GoOutOfFuel
    case Stuck(tr) => g == GoUnreached(tr)
  }

  /** A block: its variables are gone, so only what happened matters. */
  ghost predicate AgreesInside(r: Res, g: GoRes, f: Frame) {
    if r.Norm? then g.GoNorm? && g.tr == r.tr else Agrees(r, g, f, map[])
  }

  /** Leaving a block or a branch drops its variables. */
  lemma LeavingAgrees(r: Res, g: GoRes, f: Frame, env: Env, temps: Temps)
    requires AgreesInside(r, g, f)
    ensures Agrees(r, Leave(g, env, temps), f, env)
  {
  }

  /** A break that leaves the loop leaves the switch on its way. */
  lemma LeavingSwitchAgrees(r: Res, g: GoRes, f: Frame, env: Env, temps: Temps)
    requires AgreesInside(r, g, Deeper(f))
    ensures Agrees(r, LeaveSwitch(g, env, temps), f, env)
  {
  }

  lemma AgreeingIsInside(r: Res, g: GoRes, f: Frame, env: Env)
    requires Agrees(r, g, f, env)
    ensures AgreesInside(r, g, f)
  {
  }

  lemma {:induction false} GoExecConcat(a: seq<GoStmt>, b: seq<GoStmt>, env: Env, temps: Temps, w: World, fuel: nat, tr: Trace)
    ensures GoExec(a + b, env, temps, w, fuel, tr) ==
            match GoExec(a, env, temps, w, fuel, tr)
            case GoNorm(env', temps', tr') => GoExec(b, env', temps', w, fuel, tr')
            case stop => stop
    decreases |a|
  {
    if a == [] {
      assert a + b == b;
    } else {
      assert (a + b)[0] == a[0] && (a + b)[1..] == a[1..] + b;
      var r := GoStep(a[0], env, temps, w, fuel, tr);
      if r.GoNorm? { GoExecConcat(a[1..], b, r.env, r.temps, w, fuel, r.tr); }
    }
  }

  lemma GoExecOne(s: GoStmt, env: Env, temps: Temps, w: World, fuel: nat, tr: Trace)
    ensures GoExec([s], env, temps, w, fuel, tr) == GoStep(s, env, temps, w, fuel, tr)
  {
    var ss := [s];
    assert ss[0] == s && ss[1..] == [];
    var r := GoStep(s, env, temps, w, fuel, tr);
    if r.GoNorm? { assert GoExec(ss[1..], r.env, r.temps, w, fuel, r.tr) == r; }
  }

  lemma GoExecThenOne(a: seq<GoStmt>, s: GoStmt, env: Env, temps: Temps, w: World, fuel: nat, tr: Trace)
    ensures GoExec(a + [s], env, temps, w, fuel, tr) ==
            match GoExec(a, env, temps, w, fuel, tr)
            case GoNorm(env', temps', tr') => GoStep(s, env', temps', w, fuel, tr')
            case stop => stop
  {
    GoExecConcat(a, [s], env, temps, w, fuel, tr);
    var r := GoExec(a, env, temps, w, fuel, tr);
    if r.GoNorm? { GoExecOne(s, r.env, r.temps, w, fuel, r.tr); }
  }

  lemma {:induction false} SimpleValueRuns(n: Node, env: Env, temps: Temps, variants: Variants, w: World, fuel: nat, tr: Trace)
    requires SimpleValue(n).Some?
    ensures Exec(n, env, variants, w, fuel, tr) == GoEval(SimpleValue(n).value, env, temps, w, tr)
    ensures var r := Exec(n, env, variants, w, fuel, tr); r.Norm? || r.Panicked?
  {
    match n
    case Paren(inner) => SimpleValueRuns(inner, env, temps, variants, w, fuel, tr);
    case Atom(_) =>
    case Call(_, _) =>
    case Name(_) =>
  }

  lemma {:induction false} SimpleStmtRuns(n: Node, f: Frame, env: Env, temps: Temps, variants: Variants, w: World, fuel: nat, tr: Trace)
    requires SimpleStmt(n).Some?
    ensures Agrees(Exec(n, env, variants, w, fuel, tr), GoExec(SimpleStmt(n).value, env, temps, w, fuel, tr), f, env)
  {
    match n
    case Paren(inner) => SimpleStmtRuns(inner, f, env, temps, variants, w, fuel, tr);
    case Atom(id) => GoExecOne(GoAtom(id), env, temps, w, fuel, tr);
    case Name(x) => GoExecOne(GoName(x), env, temps, w, fuel, tr);
    case Call(id, c) => GoExecOne(GoCall(id, c), env, temps, w, fuel, tr);
  }

  // ---------------------------------------------------------------- statement position

  /** The variables after a statement. */
  function After(n: Node, r: Res, env: Env): Env { if n.Let? && r.Norm? then env[n.x := r.v] else env }

  /** `return e` and `let x = e` over an expression written in place. */
  lemma SimpleValueUsed(
    v: Node, n: Node, f: Frame, env: Env, temps: Temps, variants: Variants, w: World, fuel: nat, tr: Trace)
    requires SimpleValue(v).Some? && (n == Return(Some(v)) || (n.Let? && n.init == v))
    ensures Lower(n, f, variants).Some?
    ensures var r := Exec(n, env, variants, w, fuel, tr);
            Agrees(r, GoExec(Lower(n, f, variants).value, env, temps, w, fuel, tr), f, After(n, r, env))
  {
    SimpleValueRuns(v, env, temps, variants, w, fuel, tr);
    GoExecOne(Lower(n, f, variants).value[0], env, temps, w, fuel, tr);
  }

  /** What a catch leaves: unless it is Err, the temp holds the value whose payload is read next; on
      Err the handler has left, and nothing reads the payload. */
  ghost predicate CatchDone(n: Node, r: Res, g: GoRes, f: Frame, env: Env)
    requires n.Catch?
  {
    && Agrees(r, g, f, env)
    && (r.Norm? && g.GoNorm? ==> n.at in g.temps && !IsErr(g.temps[n.at]) && PayloadV(g.temps[n.at]) == r.v)
  }

  /** `return c` and `let x = c` over a catch. */
  lemma CatchResultUsed(
    c: Node, n: Node, last: GoStmt, f: Frame, env: Env, temps: Temps, variants: Variants, w: World, fuel: nat, tr: Trace)
    requires c.Catch? && LowerCatch(c, f, variants).Some?
    requires (n == Return(Some(c)) && last == GoReturn(PayloadOf(c.at))) ||
             (n.Let? && n.init == c && last == GoVar(n.x, PayloadOf(c.at)))
    requires CatchDone(c, Exec(c, env, variants, w, fuel, tr), GoExec(LowerCatch(c, f, variants).value, env, temps, w, fuel, tr), f, env)
    ensures Lower(n, f, variants) == Some(LowerCatch(c, f, variants).value + [last])
    ensures var r := Exec(n, env, variants, w, fuel, tr);
            Agrees(r, GoExec(LowerCatch(c, f, variants).value + [last], env, temps, w, fuel, tr), f, After(n, r, env))
  {
    GoExecThenOne(LowerCatch(c, f, variants).value, last, env, temps, w, fuel, tr);
  }

  lemma {:induction false} StatementPreserved(
    n: Node, f: Frame, bound: set<string>, env: Env, temps: Temps, variants: Variants, w: World, fuel: nat, tr: Trace)
    requires Lower(n, f, variants).Some? && FrameServes(f, n) && Healthy(n, bound, variants) && env.Keys <= bound
    ensures var r := Exec(n, env, variants, w, fuel, tr);
            Agrees(r, GoExec(Lower(n, f, variants).value, env, temps, w, fuel, tr), f, After(n, r, env))
    decreases fuel, n, 2
  {
    hide Exec, GoExec, GoStep, Agrees;
    var code := Lower(n, f, variants).value;
    match n
    case Return(None) => JumpPreserved(n, f, env, temps, variants, w, fuel, tr);
    case Return(Some(v)) => UsePreserved(v, n, f, bound, env, temps, variants, w, fuel, tr);
    case Catch(_, _, _, _) => CatchPreserved(n, f, bound, env, temps, variants, w, fuel, tr);
    case Break => JumpPreserved(n, f, env, temps, variants, w, fuel, tr);
    case Continue => JumpPreserved(n, f, env, temps, variants, w, fuel, tr);
    case Match(on, arms) =>
      GoExecOne(code[0], env, temps, w, fuel, tr);
      MatchPreserved(n, f, bound, env, temps, variants, w, fuel, tr);
    case Block(_) => BlockPreserved(n, f, bound, env, temps, variants, w, fuel, tr);
    case If(_, _, _, _) =>
      GoExecOne(code[0], env, temps, w, fuel, tr);
      IfPreserved(n, f, bound, env, temps, variants, w, fuel, tr);
    case Let(_, init) => UsePreserved(init, n, f, bound, env, temps, variants, w, fuel, tr);
    case Loop(_, _, _, _) =>
      GoExecOne(code[0], env, temps, w, fuel, tr);
      LoopPreserved(n, f, bound, env, temps, variants, w, fuel, tr);
      RunsAsLoop(n, code[0], env, temps, variants, w, fuel, tr);
    case Select(_, _) =>
      GoExecOne(code[0], env, temps, w, fuel, tr);
      SelectPreserved(n, f, bound, env, temps, variants, w, fuel, tr);
    case _ => SimpleStmtRuns(n, f, env, temps, variants, w, fuel, tr);
  }

  lemma RunsAsLoop(n: Node, s: GoStmt, env: Env, temps: Temps, variants: Variants, w: World, fuel: nat, tr: Trace)
    requires n.Loop? && s.GoFor?
    ensures Exec(n, env, variants, w, fuel, tr) == ExecLoop(n, env, variants, w, fuel, tr)
    ensures GoStep(s, env, temps, w, fuel, tr) == GoLoop(s, env, temps, w, fuel, tr)
  {
  }

  /** `break`, `continue` and a `return` without a value. */
  lemma JumpPreserved(n: Node, f: Frame, env: Env, temps: Temps, variants: Variants, w: World, fuel: nat, tr: Trace)
    requires Lower(n, f, variants).Some? && FrameServes(f, n) && (n.Break? || n.Continue? || n == Return(None))
    ensures var r := Exec(n, env, variants, w, fuel, tr);
            Agrees(r, GoExec(Lower(n, f, variants).value, env, temps, w, fuel, tr), f, After(n, r, env))
  {
    GoExecOne(Lower(n, f, variants).value[0], env, temps, w, fuel, tr);
  }

  lemma {:induction false} BlockPreserved(
    n: Node, f: Frame, bound: set<string>, env: Env, temps: Temps, variants: Variants, w: World, fuel: nat, tr: Trace)
    requires n.Block? && Lower(n, f, variants).Some? && FrameServes(f, n) && Healthy(n, bound, variants) && env.Keys <= bound
    ensures Agrees(Exec(n, env, variants, w, fuel, tr), GoExec(Lower(n, f, variants).value, env, temps, w, fuel, tr), f, env)
    decreases fuel, n, 1
  {
    GoExecOne(Lower(n, f, variants).value[0], env, temps, w, fuel, tr);
    BodyPreserved(n.stmts, f, bound, env, temps, variants, w, fuel, tr);
    LeavingAgrees(ExecBody(n.stmts, env, variants, w, fuel, tr),
                  GoExec(LowerBody(n.stmts, f, variants).value, env, temps, w, fuel, tr), f, env, temps);
  }

  /** `return v` and `let x = v`. */
  lemma {:induction false} UsePreserved(
    v: Node, n: Node, f: Frame, bound: set<string>, env: Env, temps: Temps, variants: Variants, w: World, fuel: nat, tr: Trace)
    requires n == Return(Some(v)) || (n.Let? && n.init == v)
    requires Lower(n, f, variants).Some? && FrameServes(f, n) && Healthy(n, bound, variants) && env.Keys <= bound
    ensures var r := Exec(n, env, variants, w, fuel, tr);
            Agrees(r, GoExec(Lower(n, f, variants).value, env, temps, w, fuel, tr), f, After(n, r, env))
    decreases fuel, n, 1
  {
    if v.Catch? {
      var last := if n.Let? then GoVar(n.x, PayloadOf(v.at)) else GoReturn(PayloadOf(v.at));
      CatchPreserved(v, f, bound, env, temps, variants, w, fuel, tr);
      CatchResultUsed(v, n, last, f, env, temps, variants, w, fuel, tr);
    } else {
      SimpleValueUsed(v, n, f, env, temps, variants, w, fuel, tr);
    }
  }

  /** The preamble of a catch. */
  lemma {:induction false} CatchPreserved(
    n: Node, f: Frame, bound: set<string>, env: Env, temps: Temps, variants: Variants, w: World, fuel: nat, tr: Trace)
    requires n.Catch? && LowerCatch(n, f, variants).Some? && FrameServes(f, n) && Healthy(n, bound, variants) && env.Keys <= bound
    ensures CatchDone(n, Exec(n, env, variants, w, fuel, tr),
                      GoExec(LowerCatch(n, f, variants).value, env, temps, w, fuel, tr), f, env)
    decreases fuel, n, 0
  {
    var body := LowerBody(n.handler.stmts, f, variants).value;
    var step := GoCatch(n.at, n.subject, n.name, body);
    assert LowerCatch(n, f, variants).value == [step];
    GoExecOne(step, env, temps, w, fuel, tr);
    var s := EvalAtom(n.subject, env, w, tr);
    if s.Norm? && IsErr(s.v) {
      HandlerLeaves(n, f, bound, Bind1(env, n.name, ErrorOf(s.v)), temps[n.at := s.v], variants, w, fuel, s.tr);
      LeavingAgrees(Exec(n.handler, Bind1(env, n.name, ErrorOf(s.v)), variants, w, fuel, s.tr),
                    GoExec(body, Bind1(env, n.name, ErrorOf(s.v)), temps[n.at := s.v], w, fuel, s.tr), f, env, temps[n.at := s.v]);
    }
  }

  /** The handler of a healthy catch leaves, in Aril and in Go, in the same way. */
  lemma {:induction false} HandlerLeaves(
    n: Node, f: Frame, bound: set<string>, env: Env, temps: Temps, variants: Variants, w: World, fuel: nat, tr: Trace)
    requires n.Catch? && LowerCatch(n, f, variants).Some? && FrameServes(f, n) && Healthy(n, bound, variants)
    requires env.Keys <= Below(n.name, bound)
    ensures var r := Exec(n.handler, env, variants, w, fuel, tr);
            !r.Norm? && AgreesInside(r, GoExec(LowerBody(n.handler.stmts, f, variants).value, env, temps, w, fuel, tr), f)
    decreases fuel, n.handler, 1
  {
    OfBlock(n.handler, f);
    DivergenceIsSound(n.handler.stmts, Below(n.name, bound), env, variants, w, fuel, tr);
    BodyPreserved(n.handler.stmts, f, Below(n.name, bound), env, temps, variants, w, fuel, tr);
  }

  lemma {:induction false} BodyPreserved(
    b: Body, f: Frame, bound: set<string>, env: Env, temps: Temps, variants: Variants, w: World, fuel: nat, tr: Trace)
    requires LowerBody(b, f, variants).Some? && FrameServesBody(f, b) && HealthyBody(b, bound, variants) && env.Keys <= bound
    ensures AgreesInside(ExecBody(b, env, variants, w, fuel, tr),
                         GoExec(LowerBody(b, f, variants).value, env, temps, w, fuel, tr), f)
    decreases fuel, b, 0
  {
    match b
    case End =>
    case Value(e) => StatementPreserved(e, f, bound, env, temps, variants, w, fuel, tr);
    case Stmt(s, rest) =>
      StatementPreserved(s, f, bound, env, temps, variants, w, fuel, tr);
      var a := Lower(s, f, variants).value;
      GoExecConcat(a, LowerBody(rest, f, variants).value, env, temps, w, fuel, tr);
      var r := Exec(s, env, variants, w, fuel, tr);
      if r.Norm? {
        var g := GoExec(a, env, temps, w, fuel, tr);
        BodyPreserved(rest, f, Behind(s, bound), After(s, r, env), g.temps, variants, w, fuel, r.tr);
      }
  }

  lemma {:induction false} IfPreserved(
    n: Node, f: Frame, bound: set<string>, env: Env, temps: Temps, variants: Variants, w: World, fuel: nat, tr: Trace)
    requires n.If? && Lower(n, f, variants).Some? && FrameServes(f, n) && Healthy(n, bound, variants) && env.Keys <= bound
    ensures Agrees(Exec(n, env, variants, w, fuel, tr), GoStep(Lower(n, f, variants).value[0], env, temps, w, fuel, tr), f, env)
    decreases fuel, n, 1
  {
    var a := LowerBody(n.thn.stmts, f, variants).value;
    var b := LowerElse(n.kind, n.els, f, variants).value;
    assert Lower(n, f, variants).value[0] == GoIf(n.cond, a, b);
    var c := EvalAtom(n.cond, env, w, tr);
    if c.Norm? {
      if Truthy(c.v) {
        OfBlock(n.thn, f);
        BodyPreserved(n.thn.stmts, f, bound, env, temps, variants, w, fuel, c.tr);
        LeavingAgrees(Exec(n.thn, env, variants, w, fuel, c.tr), GoExec(a, env, temps, w, fuel, c.tr), f, env, temps);
      } else if n.els.Some? {
        ElsePreserved(n.kind, n.els.value, f, bound, env, temps, variants, w, fuel, c.tr);
        LeavingAgrees(Exec(n.els.value, env, variants, w, fuel, c.tr), GoExec(b, env, temps, w, fuel, c.tr), f, env, temps);
      }
    }
  }

  lemma {:induction false} ElsePreserved(
    kind: IfKind, e: Node, f: Frame, bound: set<string>, env: Env, temps: Temps, variants: Variants, w: World, fuel: nat, tr: Trace)
    requires LowerElse(kind, Some(e), f, variants).Some? && FrameServes(f, e) && Healthy(e, bound, variants) && env.Keys <= bound
    ensures AgreesInside(Exec(e, env, variants, w, fuel, tr),
                         GoExec(LowerElse(kind, Some(e), f, variants).value, env, temps, w, fuel, tr), f)
    decreases fuel, e, 3
  {
    if e.Block? {
      OfBlock(e, f);
      BodyPreserved(e.stmts, f, bound, env, temps, variants, w, fuel, tr);
    } else {
      StatementPreserved(e, f, bound, env, temps, variants, w, fuel, tr);
      AgreeingIsInside(Exec(e, env, variants, w, fuel, tr), GoExec(Lower(e, f, variants).value, env, temps, w, fuel, tr), f, env);
    }
  }

  lemma {:induction false} LoopPreserved(
    n: Node, f: Frame, bound: set<string>, env: Env, temps: Temps, variants: Variants, w: World, fuel: nat, tr: Trace)
    requires n.Loop? && Lower(n, f, variants).Some? && Healthy(n, bound, variants) && env.Keys <= bound
    ensures Agrees(ExecLoop(n, env, variants, w, fuel, tr), GoLoop(Lower(n, f, variants).value[0], env, temps, w, fuel, tr), f, env)
    decreases fuel, n, 1
  {
    var s := Lower(n, f, variants).value[0];
    var inner := InLoop(if Scan(n.body, false) then Some(n.at) else None, 0);
    if fuel > 0 {
      var tr' := tr + [Event(n.head, env)];
      var next := w.next(n.head, env, tr);
      if next.Some? && next.value.Some? {
        var env' := Bind1(env, n.name, next.value.value);
        OfBlock(n.body, inner);
        BodyPreserved(n.body.stmts, inner, Below(n.name, bound), env', temps, variants, w, fuel - 1, tr');
        var r := Exec(n.body, env', variants, w, fuel - 1, tr');
        assert AgreesInside(r, GoExec(s.body, env', temps, w, fuel - 1, tr'), inner);
        if r.Norm? || r.Cont? {
          LoopPreserved(n, f, bound, env, temps, variants, w, fuel - 1, r.tr);
        }
      }
    }
  }

  /** The clauses of a lowered match, by index. */
  lemma {:induction false} ClausesAre(n: Node, i: nat, heads: seq<(Test, seq<Bind>)>, f: Frame, variants: Variants)
    requires n.Match? && i <= |n.arms| == |heads| && LowerArmBodies(n, i, heads, f, variants).Some?
    ensures var cases := LowerArmBodies(n, i, heads, f, variants).value;
            && |cases| == |heads| - i
            && (forall k :: i <= k < |heads| ==>
                  Lower(n.arms[k].body, f, variants) == Some(cases[k - i].body) &&
                  cases[k - i].test == heads[k].0 && cases[k - i].binds == heads[k].1)
    decreases |heads| - i
  {
    if i < |heads| { ClausesAre(n, i + 1, heads, f, variants); }
  }

  /** Go's choice for a lowered match is Aril's, with the same bindings. */
  lemma ChoiceAgrees(n: Node, heads: seq<(Test, seq<Bind>)>, cases: seq<GoCase>, vs: seq<Value>, variants: Variants)
    requires n.Match? && |vs| == Width(Shape(n.on)) && HealthyMatch(n.on, PatternsOf(n.arms), variants)
    requires LowerPatterns(PatternsOf(n.arms), Shape(n.on), variants) == Some(heads)
    requires |cases| == |heads| && forall k :: 0 <= k < |heads| ==> cases[k].test == heads[k].0 && cases[k].binds == heads[k].1
    ensures FirstMatch(PatternsOf(n.arms), vs, Shape(n.on), variants) ==
            match GoPick(TestsOf(cases), vs)
            case Some(i) => Some((i, Bound(cases[i].binds, vs)))
            case None => None
  {
    assert TestsOf(cases) == Tests(heads);
    PatternProofs.SwitchIsFirstMatchExactly(PatternsOf(n.arms), Shape(n.on), variants);
    assert PatternProofs.GoChoice(heads, vs) == FirstMatch(PatternsOf(n.arms), vs, Shape(n.on), variants);
  }

  lemma SubjectWidth(on: Subject, env: Env, w: World, tr: Trace)
    ensures EvalAtoms(Ids(on), env, w, tr).0.Some? ==> |EvalAtoms(Ids(on), env, w, tr).0.value| == Width(Shape(on))
  {
    EvalAtomsLength(Ids(on), env, w, tr);
  }

  /** A match runs its chosen arm, and the switch its chosen clause. */
  lemma StepIsArm(
    n: Node, cases: seq<GoCase>, i: nat, vs: seq<Value>, tr': Trace, f: Frame, env: Env, temps: Temps, variants: Variants,
    w: World, fuel: nat, tr: Trace)
    requires n.Match? && i < |n.arms| == |cases| && |vs| == Width(Shape(n.on))
    requires EvalAtoms(Ids(n.on), env, w, tr) == (Some(vs), tr') && GoPick(TestsOf(cases), vs) == Some(i)
    requires FirstMatch(PatternsOf(n.arms), vs, Shape(n.on), variants) == Some((i, Bound(cases[i].binds, vs)))
    ensures var env' := Extend(env, Bound(cases[i].binds, vs));
            && Exec(n, env, variants, w, fuel, tr) == Exec(n.arms[i].body, env', variants, w, fuel, tr')
            && GoStep(GoSwitch(Ids(n.on), cases), env, temps, w, fuel, tr)
               == LeaveSwitch(GoExec(cases[i].body, env', temps, w, fuel, tr'), env, temps)
  {
  }

  /** No arm runs: a component panics, or no arm fits, and the code goes on with nothing changed. */
  lemma StepIsNoArm(
    n: Node, cases: seq<GoCase>, f: Frame, env: Env, temps: Temps, variants: Variants, w: World, fuel: nat, tr: Trace)
    requires n.Match?
    requires var (vs, tr') := EvalAtoms(Ids(n.on), env, w, tr);
             || vs.None?
             || (|vs.value| == Width(Shape(n.on)) && FirstMatch(PatternsOf(n.arms), vs.value, Shape(n.on), variants).None?
                  && GoPick(TestsOf(cases), vs.value).None?)
    ensures Agrees(Exec(n, env, variants, w, fuel, tr), GoStep(GoSwitch(Ids(n.on), cases), env, temps, w, fuel, tr), f, env)
  {
  }

  lemma IsHealthyMatch(n: Node, bound: set<string>, variants: Variants)
    requires n.Match? && Healthy(n, bound, variants)
    ensures HealthyMatch(n.on, PatternsOf(n.arms), variants)
  {
  }

  /** What a lowered match is. */
  lemma LoweredMatch(n: Node, f: Frame, variants: Variants) returns (heads: seq<(Test, seq<Bind>)>, cases: seq<GoCase>)
    requires n.Match? && Lower(n, f, variants).Some?
    ensures Lower(n, f, variants) == Some([GoSwitch(Ids(n.on), cases)])
    ensures LowerPatterns(PatternsOf(n.arms), Shape(n.on), variants) == Some(heads) && |heads| == |cases| == |n.arms|
    ensures forall k :: 0 <= k < |heads| ==>
              Lower(n.arms[k].body, Deeper(f), variants) == Some(cases[k].body)
               && cases[k].test == heads[k].0 && cases[k].binds == heads[k].1
  {
    heads := LowerPatterns(PatternsOf(n.arms), Shape(n.on), variants).value;
    cases := LowerArmBodies(n, 0, heads, Deeper(f), variants).value;
    ClausesAre(n, 0, heads, Deeper(f), variants);
    assert forall k :: 0 <= k < |heads| ==> cases[k] == cases[k - 0];
  }

  lemma {:induction false} MatchPreserved(
    n: Node, f: Frame, bound: set<string>, env: Env, temps: Temps, variants: Variants, w: World, fuel: nat, tr: Trace)
    requires n.Match? && Lower(n, f, variants).Some? && FrameServes(f, n) && Healthy(n, bound, variants) && env.Keys <= bound
    ensures Agrees(Exec(n, env, variants, w, fuel, tr), GoStep(Lower(n, f, variants).value[0], env, temps, w, fuel, tr), f, env)
    decreases fuel, n, 1
  {
    hide Exec, GoStep, Lower, LowerPatterns, Healthy, HealthyMatch, FirstMatch, GoPick;
    var heads, cases := LoweredMatch(n, f, variants);
    SubjectWidth(n.on, env, w, tr);
    IsHealthyMatch(n, bound, variants);
    var (vs, tr') := EvalAtoms(Ids(n.on), env, w, tr);
    if vs.Some? { ChoiceAgrees(n, heads, cases, vs.value, variants); }
    if vs.Some? && FirstMatch(PatternsOf(n.arms), vs.value, Shape(n.on), variants).Some? {
      var (i, bs) := FirstMatch(PatternsOf(n.arms), vs.value, Shape(n.on), variants).value;
      var env' := Extend(env, bs);
      ArmScope(n, vs.value, env, bound, variants);
      StepIsArm(n, cases, i, vs.value, tr', f, env, temps, variants, w, fuel, tr);
      ArmPreserved(n, i, f, bound, env', temps, variants, w, fuel, tr');
      LeavingSwitchAgrees(Exec(n.arms[i].body, env', variants, w, fuel, tr'),
                          GoExec(cases[i].body, env', temps, w, fuel, tr'), f, env, temps);
    } else {
      StepIsNoArm(n, cases, f, env, temps, variants, w, fuel, tr);
    }
  }

  /** One arm, under the switch. */
  lemma {:induction false} ArmPreserved(
    n: Node, i: nat, f: Frame, bound: set<string>, env: Env, temps: Temps, variants: Variants, w: World, fuel: nat, tr: Trace)
    requires n.Match? && i < |n.arms| && Lower(n.arms[i].body, Deeper(f), variants).Some?
    requires FrameServes(f, n) && Healthy(n, bound, variants)
    requires env.Keys <= bound + Vars(n.arms[i].pattern)
    ensures AgreesInside(Exec(n.arms[i].body, env, variants, w, fuel, tr),
                         GoExec(Lower(n.arms[i].body, Deeper(f), variants).value, env, temps, w, fuel, tr), Deeper(f))
    decreases fuel, n, 0
  {
    var body := n.arms[i].body;
    assert FrameServes(Deeper(f), body);
    StatementPreserved(body, Deeper(f), bound + Vars(n.arms[i].pattern), env, temps, variants, w, fuel, tr);
    var r := Exec(body, env, variants, w, fuel, tr);
    AgreeingIsInside(r, GoExec(Lower(body, Deeper(f), variants).value, env, temps, w, fuel, tr), Deeper(f), After(body, r, env));
  }

  lemma {:induction false} CasesAre(n: Node, i: nat, f: Frame, variants: Variants)
    requires n.Select? && i <= |n.cases| && LowerCases(n, i, f, variants).Some?
    ensures var bodies := LowerCases(n, i, f, variants).value;
            && |bodies| == |n.cases| - i
            && (forall k :: i <= k < |n.cases| ==>
                  n.cases[k].Block? && LowerBody(n.cases[k].stmts, f, variants) == Some(bodies[k - i].code))
    decreases |n.cases| - i
  {
    if i < |n.cases| { CasesAre(n, i + 1, f, variants); }
  }

  lemma {:induction false} SelectPreserved(
    n: Node, f: Frame, bound: set<string>, env: Env, temps: Temps, variants: Variants, w: World, fuel: nat, tr: Trace)
    requires n.Select? && Lower(n, f, variants).Some? && FrameServes(f, n) && Healthy(n, bound, variants) && env.Keys <= bound
    ensures Agrees(Exec(n, env, variants, w, fuel, tr), GoStep(Lower(n, f, variants).value[0], env, temps, w, fuel, tr), f, env)
    decreases fuel, n, 1
  {
    hide Healthy;
    var bodies := LowerCases(n, 0, Deeper(f), variants).value;
    assert Lower(n, f, variants).value[0] == GoSelect(n.id, bodies);
    CasesAre(n, 0, Deeper(f), variants);
    if n.cases != [] {
      var k := w.choose(n.id, env, tr) % |n.cases|;
      var tr' := tr + [Event(n.id, env)];
      assert bodies[k - 0] == bodies[k];
      CasePreserved(n, k, f, bound, env, temps, variants, w, fuel, tr');
      LeavingSwitchAgrees(Exec(n.cases[k], env, variants, w, fuel, tr'), GoExec(bodies[k].code, env, temps, w, fuel, tr'), f, env, temps);
    }
  }

  /** One case, under the select. */
  lemma {:induction false} CasePreserved(
    n: Node, i: nat, f: Frame, bound: set<string>, env: Env, temps: Temps, variants: Variants, w: World, fuel: nat, tr: Trace)
    requires n.Select? && i < |n.cases| && n.cases[i].Block? && LowerBody(n.cases[i].stmts, Deeper(f), variants).Some?
    requires FrameServes(f, n) && Healthy(n, bound, variants) && env.Keys <= bound
    ensures AgreesInside(Exec(n.cases[i], env, variants, w, fuel, tr),
                         GoExec(LowerBody(n.cases[i].stmts, Deeper(f), variants).value, env, temps, w, fuel, tr), Deeper(f))
    decreases fuel, n, 0
  {
    OfBlock(n.cases[i], Deeper(f));
    assert FrameServes(Deeper(f), n.cases[i]);
    BodyPreserved(n.cases[i].stmts, Deeper(f), bound, env, temps, variants, w, fuel, tr);
  }

  /** Wherever the frame serves n and n is healthy, running `code` is running n. */
  ghost predicate RunsAsStatement(n: Node, f: Frame, code: seq<GoStmt>, variants: Variants) {
    forall bound: set<string>, env: Env, temps: Temps, w: World, fuel: nat, tr: Trace ::
      FrameServes(f, n) && Healthy(n, bound, variants) && env.Keys <= bound ==>
      var r := Exec(n, env, variants, w, fuel, tr);
      Agrees(r, GoExec(code, env, temps, w, fuel, tr), f, After(n, r, env))
  }

  lemma StatementRuns(n: Node, f: Frame, variants: Variants)
    requires Lower(n, f, variants).Some?
    ensures RunsAsStatement(n, f, Lower(n, f, variants).value, variants)
  {
    forall bound: set<string>, env: Env, temps: Temps, w: World, fuel: nat, tr: Trace
      | FrameServes(f, n) && Healthy(n, bound, variants) && env.Keys <= bound
      ensures var r := Exec(n, env, variants, w, fuel, tr);
              Agrees(r, GoExec(Lower(n, f, variants).value, env, temps, w, fuel, tr), f, After(n, r, env))
    {
      StatementPreserved(n, f, bound, env, temps, variants, w, fuel, tr);
    }
  }

  // ---------------------------------------------------------------- the catch, exactly

  /** In every world the temp of a catch holds no Err when its payload is read. */
  ghost predicate AlwaysDone(n: Node, f: Frame, env: Env, variants: Variants)
    requires n.Catch? && LowerCatch(n, f, variants).Some?
  {
    forall temps: Temps, w: World, fuel: nat, tr: Trace ::
      CatchDone(n, Exec(n, env, variants, w, fuel, tr), GoExec(LowerCatch(n, f, variants).value, env, temps, w, fuel, tr), f, env)
  }

  /** A handler that falls through leaves an Err value in the temp. */
  lemma EscapingHandler(n: Node, f: Frame, env: Env, variants: Variants)
    requires n.Catch? && LowerCatch(n, f, variants).Some? && FrameServes(f, n)
    requires BlockDiverges(n.handler.stmts) && Escapes(n.handler.stmts, Below(n.name, env.Keys), variants)
    requires HealthyBody(n.handler.stmts, Below(n.name, env.Keys), variants)
    ensures !AlwaysDone(n, f, env, variants)
  {
    var err, e := Sum(1, []), Event(n.subject, env);
    var env' := Bind1(env, n.name, ErrorOf(err));
    assert env'.Keys == Below(n.name, env.Keys);
    EscapesIsPass(n.handler.stmts, env'.Keys, variants);
    assert CanPass(n.handler, env'.Keys, variants);
    var w' := Pass(n.handler, env', variants, 1, [] + [e]);
    AfterFirst(n.handler, err, 0, w', env', variants, 1, [], e);
    var w := First(err, 0, w', []);
    FirstAnswers(err, 0, w', [], n.subject, env);
    ErrIsLeft(n, f, env, variants, w, err);
  }

  /** One such run: the temp holds the Err value, and the code goes on. */
  lemma ErrIsLeft(n: Node, f: Frame, env: Env, variants: Variants, w: World, err: Value)
    requires n.Catch? && LowerCatch(n, f, variants).Some? && FrameServes(f, n) && IsErr(err)
    requires HealthyBody(n.handler.stmts, Below(n.name, env.Keys), variants)
    requires EvalAtom(n.subject, env, w, []) == Norm(err, [] + [Event(n.subject, env)])
    requires Exec(n.handler, Bind1(env, n.name, ErrorOf(err)), variants, w, 1, [] + [Event(n.subject, env)]).Norm?
    ensures !AlwaysDone(n, f, env, variants)
  {
    var env', tr := Bind1(env, n.name, ErrorOf(err)), [] + [Event(n.subject, env)];
    var temps: Temps := map[];
    var body := LowerBody(n.handler.stmts, f, variants).value;
    var step := GoCatch(n.at, n.subject, n.name, body);
    assert LowerCatch(n, f, variants).value == [step];
    GoExecOne(step, env, temps, w, 1, []);
    OfBlock(n.handler, f);
    BodyPreserved(n.handler.stmts, f, Below(n.name, env.Keys), env', temps[n.at := err], variants, w, 1, tr);
    assert GoExec(body, env', temps[n.at := err], w, 1, tr).GoNorm?;
    assert GoStep(step, env, temps, w, 1, []).temps == temps[n.at := err];
    assert !CatchDone(n, Exec(n, env, variants, w, 1, []), GoExec([step], env, temps, w, 1, []), f, env);
  }

  /** The payload of a lowered catch is never read of an Err, in any world, if and
      only if no callee on which the check of the handler relies is shadowed. */
  lemma CatchIsExact(n: Node, f: Frame, env: Env, variants: Variants)
    requires n.Catch? && LowerCatch(n, f, variants).Some? && FrameServes(f, n)
    requires BlockDiverges(n.handler.stmts) && HealthyBody(n.handler.stmts, Below(n.name, env.Keys), variants)
    ensures AlwaysDone(n, f, env, variants) <==> !Escapes(n.handler.stmts, Below(n.name, env.Keys), variants)
  {
    if Escapes(n.handler.stmts, Below(n.name, env.Keys), variants) {
      EscapingHandler(n, f, env, variants);
    } else {
      assert Healthy(n, env.Keys, variants);
      forall temps, w, fuel, tr
        ensures CatchDone(n, Exec(n, env, variants, w, fuel, tr), GoExec(LowerCatch(n, f, variants).value, env, temps, w, fuel, tr), f, env)
      {
        CatchPreserved(n, f, env.Keys, env, temps, variants, w, fuel, tr);
      }
    }
  }

  /** `f() catch e { panic(e) }`. */
  function PanickingCatch(): Node { Catch(1, 2, "e", Block(Value(Call(3, Ident("panic"))))) }

  /** Where a variable is called `panic`, as behind `let panic = (x) => 0`, the handler passes the
      check and falls through, and the payload is read on Err. */
  lemma ShadowedPanicFallsThrough(v: Value)
    ensures var n, env := PanickingCatch(), map["panic" := v];
            && BlockDiverges(n.handler.stmts) && LowerCatch(n, NoLoop, map[]).Some?
            && FallsThrough(n.handler.stmts, env["e" := UNIT], map[]) && !AlwaysDone(n, NoLoop, env, map[])
  {
    var n, env: Env := PanickingCatch(), map["panic" := v];
    var inner := env["e" := UNIT];
    assert "panic" in inner && "panic" in Below("e", env.Keys);
    DivergenceIsExact(n.handler.stmts, inner, map[]);
    CatchIsExact(n, NoLoop, env, map[]);
  }
}
