/**
 A match that no arm fits. internal/sema/exhaust.go looks at user sums, bool and tuples of
 those; a match on an int, a string, an Option or a Result may leave a value out. In statement
 position the code then goes on with nothing changed, and in tail position it runs the
 unreachable guard.
 */
module Unmatched {
  import opened Wrappers
  import opened Patterns
  import opened Lowering
  import opened BreakLabels
  import opened LoweringProofs
  import opened TailProofs

  // ---------------------------------------------------------------- in statement position

  lemma {:induction false} NeverStuck(n: Node, env: Env, variants: Variants, w: World, fuel: nat, tr: Trace)
    ensures !Exec(n, env, variants, w, fuel, tr).Stuck?
    decreases fuel, n, 1
  {
    match n
    case Paren(inner) => NeverStuck(inner, env, variants, w, fuel, tr);
    case Return(Some(v)) => NeverStuck(v, env, variants, w, fuel, tr);
    case Block(body) => BodyNeverStuck(body, env, variants, w, fuel, tr);
    case If(_, cond, thn, els) =>
      var c := EvalAtom(cond, env, w, tr);
      if c.Norm? {
        if Truthy(c.v) { NeverStuck(thn, env, variants, w, fuel, c.tr); }
        else if els.Some? { NeverStuck(els.value, env, variants, w, fuel, c.tr); }
      }
    case Match(on, arms) =>
      EvalAtomsLength(Ids(on), env, w, tr);
      var (vs, tr') := EvalAtoms(Ids(on), env, w, tr);
      if vs.Some? {
        var m := FirstMatch(PatternsOf(arms), vs.value, Shape(on), variants);
        if m.Some? { NeverStuck(arms[m.value.0].body, Extend(env, m.value.1), variants, w, fuel, tr'); }
      }
    case Catch(_, subject, name, handler) =>
      var s := EvalAtom(subject, env, w, tr);
      if s.Norm? && IsErr(s.v) { NeverStuck(handler, Bind1(env, name, ErrorOf(s.v)), variants, w, fuel, s.tr); }
    case Let(_, init) => NeverStuck(init, env, variants, w, fuel, tr);
    case Loop(_, _, _, _) => LoopNeverStuck(n, env, variants, w, fuel, tr);
    case Select(id, cases) =>
      if cases != [] { NeverStuck(cases[w.choose(id, env, tr) % |cases|], env, variants, w, fuel, tr + [Event(id, env)]); }
    case _ =>
  }

  lemma {:induction false} BodyNeverStuck(b: Body, env: Env, variants: Variants, w: World, fuel: nat, tr: Trace)
    ensures !ExecBody(b, env, variants, w, fuel, tr).Stuck?
    decreases fuel, b, 0
  {
    match b
    case End =>
    case Value(e) => NeverStuck(e, env, variants, w, fuel, tr);
    case Stmt(s, rest) =>
      NeverStuck(s, env, variants, w, fuel, tr);
      var r := Exec(s, env, variants, w, fuel, tr);
      if r.Norm? { BodyNeverStuck(rest, if s.Let? then env[s.x := r.v] else env, variants, w, fuel, r.tr); }
  }

  lemma {:induction false} LoopNeverStuck(n: Node, env: Env, variants: Variants, w: World, fuel: nat, tr: Trace)
    requires n.Loop?
    ensures !ExecLoop(n, env, variants, w, fuel, tr).Stuck?
    decreases fuel, n, 0
  {
    if fuel > 0 {
      var next := w.next(n.head, env, tr);
      if next.Some? && next.value.Some? {
        var env', tr' := Bind1(env, n.name, next.value.value), tr + [Event(n.head, env)];
        NeverStuck(n.body, env', variants, w, fuel - 1, tr');
        var r := Exec(n.body, env', variants, w, fuel - 1, tr');
        if r.Norm? || r.Cont? { LoopNeverStuck(n, env, variants, w, fuel - 1, r.tr); }
      }
    }
  }

  /** The subject is evaluated, and no arm fits its value. */
  ghost predicate NoArmFits(n: Node, env: Env, variants: Variants, w: World, tr: Trace)
    requires n.Match?
  {
    var (vs, _) := EvalAtoms(Ids(n.on), env, w, tr);
    vs.Some? && |vs.value| == Width(Shape(n.on)) && FirstMatch(PatternsOf(n.arms), vs.value, Shape(n.on), variants).None?
  }

  /** A lowered statement never runs the guard; and where no arm of a match fits, nothing but the
      evaluation of the subject has happened, and the code goes on. */
  lemma StatementGoesOn(
    n: Node, f: Frame, bound: set<string>, env: Env, temps: Temps, variants: Variants, w: World, fuel: nat, tr: Trace)
    requires Lower(n, f, variants).Some? && FrameServes(f, n) && Healthy(n, bound, variants) && env.Keys <= bound
    ensures var g := GoExec(Lower(n, f, variants).value, env, temps, w, fuel, tr);
            && !g.GoUnreached?
            && (n.Match? && NoArmFits(n, env, variants, w, tr) ==>
                  g.GoNorm? && g.env == env && g.tr == EvalAtoms(Ids(n.on), env, w, tr).1)
  {
    NeverStuck(n, env, variants, w, fuel, tr);
    StatementPreserved(n, f, bound, env, temps, variants, w, fuel, tr);
    if n.Match? { EvalAtomsLength(Ids(n.on), env, w, tr); }
  }

  // ---------------------------------------------------------------- in tail position

  /** In tail position the guard runs if and only if no arm fits. */
  lemma GuardRunsExactly(
    n: Node, f: Frame, bound: set<string>, env: Env, temps: Temps, variants: Variants, w: World, fuel: nat, tr: Trace)
    requires n.Match? && LowerTail(n, f, variants).Some? && Closed(n) && TailHealthy(n, bound, variants) && env.Keys <= bound
    requires forall i :: 0 <= i < |n.arms| ==> SimpleValue(n.arms[i].body).Some?
    ensures GoExec(LowerTail(n, f, variants).value, env, temps, w, fuel, tr).GoUnreached? <==> NoArmFits(n, env, variants, w, tr)
  {
    MatchTailPreserved(n, f, bound, env, temps, variants, w, fuel, tr);
    EvalAtomsLength(Ids(n.on), env, w, tr);
    var (vs, tr') := EvalAtoms(Ids(n.on), env, w, tr);
    if vs.Some? {
      var m := FirstMatch(PatternsOf(n.arms), vs.value, Shape(n.on), variants);
      if m.Some? { SimpleIsNotStuck(n.arms[m.value.0].body, Extend(env, m.value.1), variants, w, fuel, tr'); }
    }
  }

  lemma {:induction false} SimpleIsNotStuck(e: Node, env: Env, variants: Variants, w: World, fuel: nat, tr: Trace)
    requires SimpleValue(e).Some?
    ensures !ExecTail(e, env, variants, w, fuel, tr).Stuck?
  {
    if e.Paren? { SimpleIsNotStuck(e.inner, env, variants, w, fuel, tr); }
  }

  // ---------------------------------------------------------------- a match that sema accepts

  /** `match n { 1 => 10 }` on an int. */
  function OneOnly(): Node { Match(One(0), [Arm(LitPat(1), Atom(1))]) }

  /** A world in which n is 2. */
  function Two(): World { World((_, _, _) => Some(Prim(2)), (_, _, _) => None, (_, _, _) => 0) }

  lemma OneOnlyLowers()
    ensures LowerFuncBody(Value(OneOnly()), false, map[]).Some? && Lower(OneOnly(), NoLoop, map[]).Some?
    ensures TailHealthy(OneOnly(), {}, map[]) && Closed(OneOnly()) && FrameServes(NoLoop, OneOnly())
    ensures FirstMatch(PatternsOf(OneOnly().arms), [Prim(2)], Single, map[]).None?
  {
    var n := OneOnly();
    var p := LitPat(1);
    assert PatternsOf(n.arms) == [p] && [p][1..] == [];
  }

  /** As the body of `func f(n: int): int`, on 2 it runs the guard; as a statement it does nothing. */
  lemma UnmatchedIntRunsTheGuard()
    ensures var n, e := OneOnly(), Event(0, map[]);
            && LowerFuncBody(Value(n), false, map[]).Some? && Lower(n, NoLoop, map[]).Some?
            && GoExec(LowerFuncBody(Value(n), false, map[]).value, map[], map[], Two(), 0, []) == GoUnreached([e])
            && var g := GoExec(Lower(n, NoLoop, map[]).value, map[], map[], Two(), 0, []);
               g.GoNorm? && g.env == map[] && g.tr == [e]
  {
    hide TailHealthy, Closed, FrameServes, Exec, GoExec, Lower, LowerTail, FirstMatch;
    var n, env: Env := OneOnly(), map[];
    OneOnlyLowers();
    TwoFitsNoArm();
    MatchTailPreserved(n, NoLoop, {}, env, map[], map[], Two(), 0, []);
    StatementGoesOn(n, NoLoop, {}, env, map[], map[], Two(), 0, []);
  }

  lemma TwoFitsNoArm()
    ensures EvalAtoms(Ids(OneOnly().on), map[], Two(), []) == (Some([Prim(2)]), [Event(0, map[])])
    ensures NoArmFits(OneOnly(), map[], map[], Two(), []) && ExecTail(OneOnly(), map[], map[], Two(), 0, []) == Stuck([Event(0, map[])])
  {
    hide TailHealthy, Closed, Lower, LowerFuncBody;
    OneOnlyLowers();
    SubjectIsOne(0, map[], Two(), []);
    assert [] + [Event(0, map[])] == [Event(0, map[])];
  }
}
