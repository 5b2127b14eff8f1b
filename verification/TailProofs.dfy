/** Tail position (internal/codegen/tail.go): the `return` the generator distributes into the
    leaves of a match, an if or a block returns what the expression means. */
module TailProofs {
  import opened Wrappers
  import opened Patterns
  import opened Lowering
  import opened BreakLabels
  import opened Divergence
  import opened LoweringProofs

  /** The Go code returns the value, or leaves as the source leaves. AsReturn has no Norm, so
      the code never falls through; and it runs the unreachable guard exactly where the source is
      Stuck, at a match that no arm fits. */
  ghost predicate Returns(r: Res, g: GoRes, f: Frame) { Agrees(AsReturn(r), g, f, map[]) }

  /** No break leaves n: in a function body no break belongs to a loop around the body. */
  predicate Closed(n: Node) { !Captured(n, true) }
  predicate ClosedBody(b: Body) { !CapturedBody(b, true) }

  /** The leaves in tail position that are emitted as statements, because they are accepted as
      diverging, do not escape. */
  ghost predicate TrueLeaves(e: Node, bound: set<string>, variants: Variants)
    decreases e, 1
  {
    match e
    case Paren(inner) => TrueLeaves(inner, bound, variants)
    case Match(_, arms) => forall i :: 0 <= i < |arms| ==> TrueLeaves(arms[i].body, bound + Vars(arms[i].pattern), variants)
    case Catch(_, _, name, handler) => TrueLeaves(handler, Below(name, bound), variants)
    case If(_, _, thn, els) => TrueLeaves(thn, bound, variants) && (els.Some? ==> TrueLeaves(els.value, bound, variants))
    case Block(body) => TrueEnd(body, bound, variants)
    case _ => !ExprEscapes(e, bound, variants)
  }

  ghost predicate TrueEnd(b: Body, bound: set<string>, variants: Variants)
    decreases b, 0
  {
    match b
    case End => true
    case Value(e) => TrueLeaves(e, bound, variants)
    case Stmt(s, rest) => (rest.End? ==> !StmtEscapes(s, bound, variants)) && TrueEnd(rest, Behind(s, bound), variants)
  }

  /** What tail position asks of an expression. */
  ghost predicate TailHealthy(e: Node, bound: set<string>, variants: Variants) {
    Healthy(e, bound, variants) && TrueLeaves(e, bound, variants)
  }

  ghost predicate TailHealthyBody(b: Body, bound: set<string>, variants: Variants) {
    HealthyBody(b, bound, variants) && TrueEnd(b, bound, variants)
  }

  lemma {:induction false} CapturedGrows(n: Node)
    requires Captured(n, false)
    ensures Captured(n, true)
    decreases n, 1
  {
    match n
    case Paren(inner) => CapturedGrows(inner);
    case Return(v) => CapturedGrows(v.value);
    case Let(_, v) => CapturedGrows(v);
    case Catch(_, _, _, handler) => CapturedGrows(handler);
    case If(_, _, thn, els) => if Captured(thn, false) { CapturedGrows(thn); } else { CapturedGrows(els.value); }
    case Block(body) => CapturedBodyGrows(body);
    case Match(_, _) =>
    case Select(_, _) =>
  }

  lemma {:induction false} CapturedBodyGrows(b: Body)
    requires CapturedBody(b, false)
    ensures CapturedBody(b, true)
    decreases b, 0
  {
    match b
    case Value(e) => CapturedGrows(e);
    case Stmt(s, rest) => if Captured(s, false) { CapturedGrows(s); } else { CapturedBodyGrows(rest); }
  }

  lemma ClosedServes(n: Node, f: Frame)
    requires Closed(n)
    ensures FrameServes(f, n)
  {
    if Captured(n, false) { CapturedGrows(n); }
  }

  lemma ReturnsIsFinal(r: Res, g: GoRes, f: Frame, env: Env, temps: Temps)
    requires Returns(r, g, f)
    ensures !g.GoNorm? && (g.GoUnreached? <==> r.Stuck?) && Leave(g, env, temps) == g
  {
  }

  lemma LeafReturns(e: Node, f: Frame, env: Env, temps: Temps, variants: Variants, w: World, fuel: nat, tr: Trace)
    requires SimpleValue(e).Some?
    ensures Returns(Exec(e, env, variants, w, fuel, tr),
                    GoExec([GoReturn(SimpleValue(e).value)], env, temps, w, fuel, tr), f)
  {
    SimpleValueRuns(e, env, temps, variants, w, fuel, tr);
    GoExecOne(GoReturn(SimpleValue(e).value), env, temps, w, fuel, tr);
  }

  predicate IsLeaf(e: Node) { !e.Paren? && !e.Match? && !e.Catch? && !e.If? && !e.Block? }

  lemma DivergingLeafReturns(e: Node, f: Frame, bound: set<string>, env: Env, temps: Temps, variants: Variants, w: World, fuel: nat, tr: Trace)
    requires IsLeaf(e) && ExprDiverges(e) && Lower(e, f, variants).Some? && Closed(e) && TailHealthy(e, bound, variants) && env.Keys <= bound
    ensures Returns(Exec(e, env, variants, w, fuel, tr), GoExec(Lower(e, f, variants).value, env, temps, w, fuel, tr), f)
  {
    ExprDivergenceIsSound(e, bound, env, variants, w, fuel, tr);
    ClosedServes(e, f);
    StatementPreserved(e, f, bound, env, temps, variants, w, fuel, tr);
  }

  lemma {:induction false} TailPreserved(
    e: Node, f: Frame, bound: set<string>, env: Env, temps: Temps, variants: Variants, w: World, fuel: nat, tr: Trace)
    requires LowerTail(e, f, variants).Some? && Closed(e) && TailHealthy(e, bound, variants) && env.Keys <= bound
    ensures Returns(ExecTail(e, env, variants, w, fuel, tr), GoExec(LowerTail(e, f, variants).value, env, temps, w, fuel, tr), f)
    decreases e, 3
  {
    if e.Paren? {
      TailPreserved(e.inner, f, bound, env, temps, variants, w, fuel, tr);
    } else if e.Match? {
      MatchTailPreserved(e, f, bound, env, temps, variants, w, fuel, tr);
    } else if e.Catch? {
      CatchTailPreserved(e, f, bound, env, temps, variants, w, fuel, tr);
    } else if e.If? {
      IfTailPreserved(e, f, bound, env, temps, variants, w, fuel, tr);
    } else if e.Block? {
      BlockTailPreserved(e.stmts, e.stmts, f, bound, env, temps, variants, w, fuel, tr);
    } else {
      assert IsLeaf(e);
      if ExprDiverges(e) {
        DivergingLeafReturns(e, f, bound, env, temps, variants, w, fuel, tr);
      } else {
        LeafReturns(e, f, env, temps, variants, w, fuel, tr);
      }
    }
  }

  /** The rest b of a block whole: if the block is emitted only because it diverges, so does b. */
  lemma {:induction false} BlockTailPreserved(
    b: Body, whole: Body, f: Frame, bound: set<string>, env: Env, temps: Temps, variants: Variants, w: World, fuel: nat, tr: Trace)
    requires LowerTailBody(b, whole, f, variants).Some? && ClosedBody(b) && TailHealthyBody(b, bound, variants) && env.Keys <= bound
    requires BlockDiverges(whole) ==> BlockDiverges(b)
    ensures Returns(ExecTailBody(b, env, variants, w, fuel, tr),
                    GoExec(LowerTailBody(b, whole, f, variants).value, env, temps, w, fuel, tr), f)
    decreases b, 0
  {
    match b
    case Value(e) => TailPreserved(e, f, bound, env, temps, variants, w, fuel, tr);
    case Stmt(s, rest) =>
      ClosedServes(s, f);
      StatementPreserved(s, f, bound, env, temps, variants, w, fuel, tr);
      var a := Lower(s, f, variants).value;
      GoExecConcat(a, LowerTailBody(rest, whole, f, variants).value, env, temps, w, fuel, tr);
      var r := Exec(s, env, variants, w, fuel, tr);
      if r.Norm? {
        if rest.End? {
          StmtDivergenceIsSound(s, bound, env, variants, w, fuel, tr);
        } else {
          var g := GoExec(a, env, temps, w, fuel, tr);
          BlockTailPreserved(rest, whole, f, Behind(s, bound), After(s, r, env), g.temps, variants, w, fuel, r.tr);
        }
      }
  }

  lemma {:induction false} IfTailPreserved(
    e: Node, f: Frame, bound: set<string>, env: Env, temps: Temps, variants: Variants, w: World, fuel: nat, tr: Trace)
    requires e.If? && LowerTail(e, f, variants).Some? && Closed(e) && TailHealthy(e, bound, variants) && env.Keys <= bound
    ensures Returns(ExecTail(e, env, variants, w, fuel, tr), GoExec(LowerTail(e, f, variants).value, env, temps, w, fuel, tr), f)
    decreases e, 2
  {
    var a := LowerTailBody(e.thn.stmts, e.thn.stmts, f, variants).value;
    var b := LowerTailElse(e.els.value, f, variants).value;
    assert LowerTail(e, f, variants).value == [GoIf(e.cond, a, b)];
    GoExecOne(GoIf(e.cond, a, b), env, temps, w, fuel, tr);
    var c := EvalAtom(e.cond, env, w, tr);
    if c.Norm? {
      if Truthy(c.v) {
        BlockParts(e.thn, bound, variants);
        BlockTailPreserved(e.thn.stmts, e.thn.stmts, f, bound, env, temps, variants, w, fuel, c.tr);
        LeavingTail(ExecTail(e.thn, env, variants, w, fuel, c.tr), GoExec(a, env, temps, w, fuel, c.tr), f, env, temps);
      } else {
        ElseTailPreserved(e.els.value, f, bound, env, temps, variants, w, fuel, c.tr);
        LeavingTail(ExecTail(e.els.value, env, variants, w, fuel, c.tr), GoExec(b, env, temps, w, fuel, c.tr), f, env, temps);
      }
    }
  }

  lemma BlockParts(e: Node, bound: set<string>, variants: Variants)
    requires e.Block? && Closed(e) && TailHealthy(e, bound, variants)
    ensures ClosedBody(e.stmts) && TailHealthyBody(e.stmts, bound, variants)
  {
  }

  lemma LeavingTail(r: Res, g: GoRes, f: Frame, env: Env, temps: Temps)
    requires Returns(r, g, f)
    ensures Returns(r, Leave(g, env, temps), f)
  {
  }

  lemma LeavingSwitchTail(r: Res, g: GoRes, f: Frame, env: Env, temps: Temps)
    requires Returns(r, g, Deeper(f))
    ensures Returns(r, LeaveSwitch(g, env, temps), f)
  {
  }

  lemma {:induction false} ElseTailPreserved(
    e: Node, f: Frame, bound: set<string>, env: Env, temps: Temps, variants: Variants, w: World, fuel: nat, tr: Trace)
    requires LowerTailElse(e, f, variants).Some? && Closed(e) && TailHealthy(e, bound, variants) && env.Keys <= bound
    ensures Returns(ExecTail(e, env, variants, w, fuel, tr),
                    GoExec(LowerTailElse(e, f, variants).value, env, temps, w, fuel, tr), f)
    decreases e, 4
  {
    if e.Block? {
      BlockTailPreserved(e.stmts, e.stmts, f, bound, env, temps, variants, w, fuel, tr);
    } else {
      TailPreserved(e, f, bound, env, temps, variants, w, fuel, tr);
    }
  }

  /** The clauses of a match in tail position, by index. */
  lemma {:induction false} TailClausesAre(n: Node, i: nat, heads: seq<(Test, seq<Bind>)>, f: Frame, variants: Variants)
    requires n.Match? && i <= |n.arms| == |heads| && LowerArmTails(n, i, heads, f, variants).Some?
    ensures var cases := LowerArmTails(n, i, heads, f, variants).value;
            && |cases| == |heads| - i
            && (forall k :: i <= k < |heads| ==>
                  LowerTail(n.arms[k].body, f, variants) == Some(cases[k - i].body) &&
                  cases[k - i].test == heads[k].0 && cases[k - i].binds == heads[k].1)
    decreases |heads| - i
  {
    if i < |heads| { TailClausesAre(n, i + 1, heads, f, variants); }
  }

  /** What the switch alone does: where it has no clause for the value, it goes on to what follows. */
  ghost predicate Switches(r: Res, g: GoRes, f: Frame) {
    Returns(r, g, f) || (r.Stuck? && g.GoNorm? && g.tr == r.tr)
  }

  /** The switch, then the guard: a switch that returns makes the guard dead. */
  lemma GuardCatches(s: GoStmt, guard: seq<GoStmt>, r: Res, f: Frame, env: Env, temps: Temps, w: World, fuel: nat, tr: Trace)
    requires Switches(r, GoStep(s, env, temps, w, fuel, tr), f)
    requires guard == [GoUnreachable] || (guard == [] && Returns(r, GoStep(s, env, temps, w, fuel, tr), f))
    ensures Returns(r, GoExec([s] + guard, env, temps, w, fuel, tr), f)
  {
    GoExecConcat([s], guard, env, temps, w, fuel, tr);
    GoExecOne(s, env, temps, w, fuel, tr);
    var g := GoStep(s, env, temps, w, fuel, tr);
    if g.GoNorm? { GoExecOne(GoUnreachable, g.env, g.temps, w, fuel, g.tr); }
  }

  lemma {:induction false} MatchTailPreserved(
    n: Node, f: Frame, bound: set<string>, env: Env, temps: Temps, variants: Variants, w: World, fuel: nat, tr: Trace)
    requires n.Match? && LowerTail(n, f, variants).Some? && Closed(n) && TailHealthy(n, bound, variants) && env.Keys <= bound
    ensures Returns(ExecTail(n, env, variants, w, fuel, tr), GoExec(LowerTail(n, f, variants).value, env, temps, w, fuel, tr), f)
    decreases n, 2
  {
    var heads := LowerPatterns(PatternsOf(n.arms), Shape(n.on), variants).value;
    var cases := LowerArmTails(n, 0, heads, Deeper(f), variants).value;
    var step := GoSwitch(Ids(n.on), cases);
    var guard := if MatchEmitsDefault(PatternsOf(n.arms), Shape(n.on), variants) then [] else [GoUnreachable];
    assert LowerTail(n, f, variants).value == [step] + guard;
    MatchTailStep(n, heads, cases, f, bound, env, temps, variants, w, fuel, tr);
    GuardCatches(step, guard, ExecTail(n, env, variants, w, fuel, tr), f, env, temps, w, fuel, tr);
  }

  /** With a default clause the switch always has a clause. */
  lemma DefaultIsPicked(n: Node, heads: seq<(Test, seq<Bind>)>, cases: seq<GoCase>, f: Frame, variants: Variants, vs: seq<Value>)
    requires n.Match? && MatchEmitsDefault(PatternsOf(n.arms), Shape(n.on), variants)
    requires LowerPatterns(PatternsOf(n.arms), Shape(n.on), variants) == Some(heads)
    requires LowerArmTails(n, 0, heads, f, variants) == Some(cases)
    ensures GoPick(TestsOf(cases), vs).Some?
  {
    PatternProofs.EmitsDefaultIffDefault(PatternsOf(n.arms), Shape(n.on), variants);
    TailClausesAre(n, 0, heads, f, variants);
    assert forall k :: 0 <= k < |heads| ==> cases[k] == cases[k - 0];
    assert TestsOf(cases) == Tests(heads);
  }

  /** The arm Aril chooses is the clause Go chooses, with its body in tail position. */
  lemma ChosenClause(
    n: Node, heads: seq<(Test, seq<Bind>)>, cases: seq<GoCase>, f: Frame, variants: Variants, vs: seq<Value>)
    requires n.Match? && HealthyMatch(n.on, PatternsOf(n.arms), variants) && |vs| == Width(Shape(n.on))
    requires LowerPatterns(PatternsOf(n.arms), Shape(n.on), variants) == Some(heads)
    requires LowerArmTails(n, 0, heads, f, variants) == Some(cases)
    ensures |cases| == |n.arms|
    ensures var m := FirstMatch(PatternsOf(n.arms), vs, Shape(n.on), variants);
            var g := GoPick(TestsOf(cases), vs);
            && (m.None? <==> g.None?)
            && (m.Some? ==> m.value == (g.value, Bound(cases[g.value].binds, vs))
                            && LowerTail(n.arms[g.value].body, f, variants) == Some(cases[g.value].body))
  {
    TailClausesAre(n, 0, heads, f, variants);
    assert forall k :: 0 <= k < |heads| ==> cases[k] == cases[k - 0];
    ChoiceAgrees(n, heads, cases, vs, variants);
  }

  lemma TailHealthyIs(n: Node, bound: set<string>, variants: Variants)
    requires TailHealthy(n, bound, variants)
    ensures Healthy(n, bound, variants)
  {
  }

  lemma {:induction false} MatchTailStep(
    n: Node, heads: seq<(Test, seq<Bind>)>, cases: seq<GoCase>, f: Frame, bound: set<string>, env: Env, temps: Temps, variants: Variants,
    w: World, fuel: nat, tr: Trace)
    requires n.Match? && Closed(n) && TailHealthy(n, bound, variants) && env.Keys <= bound
    requires LowerPatterns(PatternsOf(n.arms), Shape(n.on), variants) == Some(heads)
    requires LowerArmTails(n, 0, heads, Deeper(f), variants) == Some(cases)
    ensures var r, g := ExecTail(n, env, variants, w, fuel, tr), GoStep(GoSwitch(Ids(n.on), cases), env, temps, w, fuel, tr);
            && Switches(r, g, f)
            && (MatchEmitsDefault(PatternsOf(n.arms), Shape(n.on), variants) ==> Returns(r, g, f))
    decreases n, 1
  {
    hide LowerPatterns, LowerArmTails, Closed, Healthy, TailHealthy, HealthyMatch, FirstMatch, GoPick, MatchEmitsDefault;
    TailHealthyIs(n, bound, variants);
    IsHealthyMatch(n, bound, variants);
    SubjectWidth(n.on, env, w, tr);
    var (vs, tr') := EvalAtoms(Ids(n.on), env, w, tr);
    if vs.Some? {
      ChosenClause(n, heads, cases, Deeper(f), variants, vs.value);
      if MatchEmitsDefault(PatternsOf(n.arms), Shape(n.on), variants) {
        DefaultIsPicked(n, heads, cases, Deeper(f), variants, vs.value);
      }
      var g := GoPick(TestsOf(cases), vs.value);
      if g.Some? {
        var env' := Extend(env, Bound(cases[g.value].binds, vs.value));
        ArmScope(n, vs.value, env, bound, variants);
        ArmTailPreserved(n, g.value, cases[g.value].body, f, bound, env', env, temps, variants, w, fuel, tr');
        TailIsArm(n, cases, g.value, vs.value, tr', env, temps, variants, w, fuel, tr);
      }
    }
  }

  /** A match in tail position yields what its chosen arm yields. */
  lemma TailIsArm(
    n: Node, cases: seq<GoCase>, i: nat, vs: seq<Value>, tr': Trace, env: Env, temps: Temps, variants: Variants,
    w: World, fuel: nat, tr: Trace)
    requires n.Match? && i < |n.arms| == |cases| && |vs| == Width(Shape(n.on))
    requires EvalAtoms(Ids(n.on), env, w, tr) == (Some(vs), tr') && GoPick(TestsOf(cases), vs) == Some(i)
    requires FirstMatch(PatternsOf(n.arms), vs, Shape(n.on), variants) == Some((i, Bound(cases[i].binds, vs)))
    ensures var env' := Extend(env, Bound(cases[i].binds, vs));
            && ExecTail(n, env, variants, w, fuel, tr) == ExecTail(n.arms[i].body, env', variants, w, fuel, tr')
            && GoStep(GoSwitch(Ids(n.on), cases), env, temps, w, fuel, tr)
               == LeaveSwitch(GoExec(cases[i].body, env', temps, w, fuel, tr'), env, temps)
  {
  }

  /** One arm, and the way out of the switch. */
  lemma {:induction false} ArmTailPreserved(
    n: Node, i: nat, code: seq<GoStmt>, f: Frame, bound: set<string>, env: Env,
    outer: Env, temps: Temps, variants: Variants, w: World, fuel: nat, tr: Trace)
    requires n.Match? && i < |n.arms| && LowerTail(n.arms[i].body, Deeper(f), variants) == Some(code)
    requires Closed(n) && TailHealthy(n, bound, variants) && env.Keys <= bound + Vars(n.arms[i].pattern)
    ensures Returns(ExecTail(n.arms[i].body, env, variants, w, fuel, tr), LeaveSwitch(GoExec(code, env, temps, w, fuel, tr), outer, temps), f)
    decreases n, 0
  {
    assert Closed(n.arms[i].body);
    TailPreserved(n.arms[i].body, Deeper(f), bound + Vars(n.arms[i].pattern), env, temps, variants, w, fuel, tr);
    LeavingSwitchTail(ExecTail(n.arms[i].body, env, variants, w, fuel, tr), GoExec(code, env, temps, w, fuel, tr), f, outer, temps);
  }

  lemma OneCondition(c: Cond, vs: seq<Value>)
    ensures TestHolds(Case([[c]]), vs) <==> CondHolds(c, vs)
  {
    var cs := [c];
    assert c in cs && cs in [cs];
  }

  lemma PickOfTwo(a: Test, b: Test, vs: seq<Value>)
    requires a.Case? && b.Case?
    ensures GoPick([a, b], vs) == if TestHolds(a, vs) then Some(0) else if TestHolds(b, vs) then Some(1) else None
  {
    var ts, rest := [a, b], [b];
    assert ts[1..] == rest && rest[1..] == [];
    assert FirstCase(rest, vs) == if TestHolds(b, vs) then Some(0) else None;
    assert FirstDefault(rest) == None;
  }

  lemma OneBinding(b: Bind, vs: seq<Value>, env: Env)
    ensures Extend(env, Bound([b], vs)) == env[b.name := PathValue(b.path, vs)]
  {
    var one, v := [b], (b.name, PathValue(b.path, vs));
    assert one[0] == b && one[1..] == [];
    var bs := Bound(one, vs);
    assert bs == [v] + Bound(one[1..], vs) == [v] + [] == [v];
    assert bs[0] == v && bs[1..] == [];
  }

  /** The two clauses of a catch in tail position: the tag decides, and the payload is bound. */
  lemma CatchClauses(name: string, ss: seq<GoStmt>, v: Value, env: Env)
    ensures GoPick(TestsOf([CatchOkCase(), CatchErrCase(name, ss)]), [v]) ==
            if IsOk(v) then Some(0) else if IsErr(v) then Some(1) else None
    ensures IsOk(v) ==> Lookup(Extend(env, Bound(CatchOkCase().binds, [v])), CATCH_VALUE) == FieldOf(v, 0)
    ensures IsErr(v) ==> Extend(env, Bound(CatchErrCase(name, ss).binds, [v])) == Bind1(env, name, ErrorOf(v))
  {
    var ok, err := CatchOkCase(), CatchErrCase(name, ss);
    assert TestsOf([ok, err]) == [ok.test, err.test];
    OneCondition(Cond(0, TagIs(0)), [v]);
    OneCondition(Cond(0, TagIs(1)), [v]);
    PickOfTwo(ok.test, err.test, [v]);
    OneBinding(ok.binds[0], [v], env);
    if name != "_" { OneBinding(err.binds[0], [v], env); }
  }

  lemma SubjectIsOne(id: int, env: Env, w: World, tr: Trace)
    ensures EvalAtoms([id], env, w, tr) ==
            match EvalAtom(id, env, w, tr) case Norm(v, tr') => (Some([v]), tr') case stop => (None, stop.tr)
  {
    var ids := [id];
    assert ids[0] == id && ids[1..] == [];
    var r := EvalAtom(id, env, w, tr);
    if r.Norm? {
      assert EvalAtoms(ids[1..], env, w, r.tr) == (Some([]), r.tr);
      assert [r.v] + [] == [r.v];
    }
  }

  lemma {:induction false} CatchTailPreserved(
    n: Node, f: Frame, bound: set<string>, env: Env, temps: Temps, variants: Variants, w: World, fuel: nat, tr: Trace)
    requires n.Catch? && LowerTail(n, f, variants).Some? && Closed(n) && TailHealthy(n, bound, variants) && env.Keys <= bound
    ensures Returns(ExecTail(n, env, variants, w, fuel, tr), GoExec(LowerTail(n, f, variants).value, env, temps, w, fuel, tr), f)
    decreases n, 2
  {
    hide Healthy, TailHealthy, Closed, ExecTail, GoExec, GoStep, Returns, Switches;
    var ss := LowerTailBody(n.handler.stmts, n.handler.stmts, Deeper(f), variants).value;
    var step := GoSwitch([n.subject], [CatchOkCase(), CatchErrCase(n.name, ss)]);
    assert LowerTail(n, f, variants).value == [step, GoUnreachable] == [step] + [GoUnreachable];
    CatchTailStep(n, ss, f, bound, env, temps, variants, w, fuel, tr);
    GuardCatches(step, [GoUnreachable], ExecTail(n, env, variants, w, fuel, tr), f, env, temps, w, fuel, tr);
  }

  lemma OkReturns(env: Env, temps: Temps, w: World, fuel: nat, tr: Trace)
    ensures GoExec([GoReturn(NameValue(CATCH_VALUE))], env, temps, w, fuel, tr) == GoRet(Lookup(env, CATCH_VALUE), tr)
  {
    GoExecOne(GoReturn(NameValue(CATCH_VALUE)), env, temps, w, fuel, tr);
  }

  /** The switch on the tag. */
  lemma {:induction false} CatchTailStep(
    n: Node, ss: seq<GoStmt>, f: Frame, bound: set<string>, env: Env, temps: Temps, variants: Variants, w: World, fuel: nat, tr: Trace)
    requires n.Catch? && LowerTail(n, f, variants).Some? && Closed(n) && TailHealthy(n, bound, variants) && env.Keys <= bound
    requires LowerTailBody(n.handler.stmts, n.handler.stmts, Deeper(f), variants) == Some(ss)
    ensures Switches(ExecTail(n, env, variants, w, fuel, tr),
                     GoStep(GoSwitch([n.subject], [CatchOkCase(), CatchErrCase(n.name, ss)]), env, temps, w, fuel, tr), f)
    decreases n, 2, 0
  {
    hide Healthy, TailHealthy, Closed, LowerTailBody, TestsOf, GoPick, GoExec, Lookup, Bound, Extend;
    var cases := [CatchOkCase(), CatchErrCase(n.name, ss)];
    SubjectIsOne(n.subject, env, w, tr);
    var r := EvalAtom(n.subject, env, w, tr);
    if r.Norm? {
      CatchClauses(n.name, ss, r.v, env);
      if IsOk(r.v) {
        OkReturns(Extend(env, Bound(cases[0].binds, [r.v])), temps, w, fuel, r.tr);
      } else if IsErr(r.v) {
        var env' := Bind1(env, n.name, ErrorOf(r.v));
        CatchHandlerTail(n, f, bound, env', temps, variants, w, fuel, r.tr);
        LeavingSwitchTail(ExecTail(n.handler, env', variants, w, fuel, r.tr), GoExec(ss, env', temps, w, fuel, r.tr), f, env, temps);
      }
    }
  }

  lemma {:induction false} CatchHandlerTail(
    n: Node, f: Frame, bound: set<string>, env: Env, temps: Temps, variants: Variants, w: World, fuel: nat, tr: Trace)
    requires n.Catch? && LowerTail(n, f, variants).Some? && Closed(n) && TailHealthy(n, bound, variants) && env.Keys <= Below(n.name, bound)
    ensures Returns(ExecTail(n.handler, env, variants, w, fuel, tr),
                    GoExec(LowerTailBody(n.handler.stmts, n.handler.stmts, Deeper(f), variants).value, env, temps, w, fuel, tr), Deeper(f))
    decreases n, 1
  {
    BlockParts(n.handler, Below(n.name, bound), variants);
    BlockTailPreserved(n.handler.stmts, n.handler.stmts, Deeper(f), Below(n.name, bound), env, temps, variants, w, fuel, tr);
  }

  // ---------------------------------------------------------------- functions

  /** The source body: the trailing expression is in tail position unless the function returns unit. */
  function RunFunc(b: Body, isUnit: bool, env: Env, variants: Variants, w: World, fuel: nat, tr: Trace): Res {
    if isUnit then ExecBody(b, env, variants, w, fuel, tr) else ExecTailBody(b, env, variants, w, fuel, tr)
  }

  /** What the caller of a body sees. */
  function Called(r: Res, isUnit: bool): Res { if r.Norm? then Ret(if isUnit then UNIT else r.v, r.tr) else r }

  /** A Go function that runs off its end returns nothing. */
  function GoCalled(g: GoRes): GoRes { if g.GoNorm? then GoRet(UNIT, g.tr) else g }

  /** A function that returns a value has a trailing expression or diverges. */
  predicate YieldsValue(b: Body) { HasTrailing(b) || BlockDiverges(b) }

  predicate HasTrailing(b: Body) {
    match b
    case End => false
    case Value(_) => true
    case Stmt(_, rest) => HasTrailing(rest)
  }

  /** A lowered function body returns, panics or runs on as the source body does. */
  lemma {:induction false} FunctionPreserved(
    b: Body, isUnit: bool, bound: set<string>, env: Env, temps: Temps, variants: Variants, w: World, fuel: nat, tr: Trace)
    requires LowerFuncBody(b, isUnit, variants).Some? && ClosedBody(b) && HealthyBody(b, bound, variants) && env.Keys <= bound
    requires isUnit || (YieldsValue(b) && TrueEnd(b, bound, variants))
    ensures Agrees(Called(RunFunc(b, isUnit, env, variants, w, fuel, tr), isUnit),
                   GoCalled(GoExec(LowerFuncBody(b, isUnit, variants).value, env, temps, w, fuel, tr)), NoLoop, map[])
    decreases b
  {
    match b
    case End =>
    case Value(e) =>
      if isUnit {
        StatementPreserved(e, NoLoop, bound, env, temps, variants, w, fuel, tr);
      } else {
        TailPreserved(e, NoLoop, bound, env, temps, variants, w, fuel, tr);
      }
    case Stmt(s, rest) =>
      StatementPreserved(s, NoLoop, bound, env, temps, variants, w, fuel, tr);
      var a := Lower(s, NoLoop, variants).value;
      GoExecConcat(a, LowerFuncBody(rest, isUnit, variants).value, env, temps, w, fuel, tr);
      var r := Exec(s, env, variants, w, fuel, tr);
      if r.Norm? {
        if rest.End? && !isUnit {
          assert !HasTrailing(rest);
          StmtDivergenceIsSound(s, bound, env, variants, w, fuel, tr);
        } else {
          var g := GoExec(a, env, temps, w, fuel, tr);
          FunctionPreserved(rest, isUnit, Behind(s, bound), After(s, r, env), g.temps, variants, w, fuel, r.tr);
        }
      }
  }

  /** Calling a function with the body `code` is calling one with the body b. */
  ghost predicate RunsAsFunction(b: Body, isUnit: bool, code: seq<GoStmt>, variants: Variants) {
    forall bound: set<string>, env: Env, temps: Temps, w: World, fuel: nat, tr: Trace ::
      ClosedBody(b) && HealthyBody(b, bound, variants)
      && env.Keys <= bound && (isUnit || (YieldsValue(b) && TrueEnd(b, bound, variants))) ==>
        Agrees(Called(RunFunc(b, isUnit, env, variants, w, fuel, tr), isUnit), GoCalled(GoExec(code, env, temps, w, fuel, tr)), NoLoop, map[])
  }

  lemma FunctionRuns(b: Body, isUnit: bool, variants: Variants)
    requires LowerFuncBody(b, isUnit, variants).Some?
    ensures RunsAsFunction(b, isUnit, LowerFuncBody(b, isUnit, variants).value, variants)
  {
    forall bound: set<string>, env: Env, temps: Temps, w: World, fuel: nat, tr: Trace |
      ClosedBody(b) && HealthyBody(b, bound, variants) && env.Keys <= bound && (isUnit || (YieldsValue(b) && TrueEnd(b, bound, variants)))
      ensures Agrees(Called(RunFunc(b, isUnit, env, variants, w, fuel, tr), isUnit),
                     GoCalled(GoExec(LowerFuncBody(b, isUnit, variants).value, env, temps, w, fuel, tr)), NoLoop, map[])
    {
      FunctionPreserved(b, isUnit, bound, env, temps, variants, w, fuel, tr);
    }
  }

  /** In tail position, running `code` returns what e yields. */
  ghost predicate RunsInTail(e: Node, f: Frame, code: seq<GoStmt>, variants: Variants) {
    forall bound: set<string>, env: Env, temps: Temps, w: World, fuel: nat, tr: Trace ::
      Closed(e) && TailHealthy(e, bound, variants) && env.Keys <= bound ==>
      Returns(ExecTail(e, env, variants, w, fuel, tr), GoExec(code, env, temps, w, fuel, tr), f)
  }

  lemma TailRuns(e: Node, f: Frame, variants: Variants)
    requires LowerTail(e, f, variants).Some?
    ensures RunsInTail(e, f, LowerTail(e, f, variants).value, variants)
  {
    forall bound: set<string>, env: Env, temps: Temps, w: World, fuel: nat, tr: Trace
      | Closed(e) && TailHealthy(e, bound, variants) && env.Keys <= bound
      ensures Returns(ExecTail(e, env, variants, w, fuel, tr), GoExec(LowerTail(e, f, variants).value, env, temps, w, fuel, tr), f)
    {
      TailPreserved(e, f, bound, env, temps, variants, w, fuel, tr);
    }
  }
}
