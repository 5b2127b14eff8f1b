/** The divergence predicate (internal/ast/diverge.go): it goes by the spelling of a callee, so
    what it accepts never falls through unless a name it relies on is shadowed. */
module Divergence {
  import opened Wrappers
  import opened Patterns
  import opened Lowering

  // ---------------------------------------------------------------- what can run to its end

  /** The names in scope behind a statement, and below a binder. */
  function Behind(s: Node, bound: set<string>): set<string> { if s.Let? then bound + {s.x} else bound }
  function Below(x: string, bound: set<string>): set<string> { if x == "_" then bound else bound + {x} }
  function NamesOf(bs: Bindings): set<string> { set b | b in bs :: b.0 }

  /** n can complete with a value, in some world, where the variables `bound` are in scope. */
  ghost predicate CanPass(n: Node, bound: set<string>, variants: Variants)
    decreases n, 1
  {
    match n
    case Call(_, c) => Recognised(c) ==> Root(c) in bound
    case Paren(inner) => CanPass(inner, bound, variants)
    case Return(_) => false
    case Break => false
    case Continue => false
    case Block(body) => CanPassBody(body, bound, variants)
    case If(_, _, thn, els) => CanPass(thn, bound, variants) || (els.Some? ==> CanPass(els.value, bound, variants))
    case Match(on, arms) =>
      exists vs :: |vs| == Width(Shape(on)) &&
        (match FirstMatch(PatternsOf(arms), vs, Shape(on), variants)
         case Some((i, bs)) => CanPass(arms[i].body, bound + NamesOf(bs), variants)
         case None => true)
    case Let(_, init) => CanPass(init, bound, variants)
    case Select(_, cases) => exists i :: 0 <= i < |cases| && CanPass(cases[i], bound, variants)
    case _ => true
  }

  ghost predicate CanPassBody(b: Body, bound: set<string>, variants: Variants)
    decreases b, 0
  {
    match b
    case End => true
    case Value(e) => CanPass(e, bound, variants)
    case Stmt(s, rest) => CanPass(s, bound, variants) && CanPassBody(rest, Behind(s, bound), variants)
  }

  // ---------------------------------------------------------------- what runs to its end can

  lemma {:induction false} ExtendKeys(env: Env, bs: Bindings)
    ensures Extend(env, bs).Keys == env.Keys + NamesOf(bs)
    decreases |bs|
  {
    if bs != [] {
      ExtendKeys(env[bs[0].0 := bs[0].1], bs[1..]);
      assert bs == [bs[0]] + bs[1..];
    }
  }

  lemma {:induction false} Passes(n: Node, bound: set<string>, env: Env, variants: Variants, w: World, fuel: nat, tr: Trace)
    requires env.Keys <= bound && Exec(n, env, variants, w, fuel, tr).Norm?
    ensures CanPass(n, bound, variants)
    decreases n, 1
  {
    match n
    case Paren(inner) => Passes(inner, bound, env, variants, w, fuel, tr);
    case Block(body) => PassesBody(body, bound, env, variants, w, fuel, tr);
    case If(_, cond, thn, els) =>
      var c := EvalAtom(cond, env, w, tr);
      if Truthy(c.v) {
        Passes(thn, bound, env, variants, w, fuel, c.tr);
      } else if els.Some? {
        Passes(els.value, bound, env, variants, w, fuel, c.tr);
      }
    case Match(on, arms) =>
      EvalAtomsLength(Ids(on), env, w, tr);
      var (vs, tr') := EvalAtoms(Ids(on), env, w, tr);
      var m := FirstMatch(PatternsOf(arms), vs.value, Shape(on), variants);
      if m.Some? {
        var (i, bs) := m.value;
        ExtendKeys(env, bs);
        Passes(arms[i].body, bound + NamesOf(bs), Extend(env, bs), variants, w, fuel, tr');
      }
    case Let(_, init) => Passes(init, bound, env, variants, w, fuel, tr);
    case Select(id, cases) =>
      Passes(cases[w.choose(id, env, tr) % |cases|], bound, env, variants, w, fuel, tr + [Event(id, env)]);
    case _ =>
  }

  lemma {:induction false} PassesBody(b: Body, bound: set<string>, env: Env, variants: Variants, w: World, fuel: nat, tr: Trace)
    requires env.Keys <= bound && ExecBody(b, env, variants, w, fuel, tr).Norm?
    ensures CanPassBody(b, bound, variants)
    decreases b, 0
  {
    match b
    case End =>
    case Value(e) => Passes(e, bound, env, variants, w, fuel, tr);
    case Stmt(s, rest) =>
      var r := Exec(s, env, variants, w, fuel, tr);
      Passes(s, bound, env, variants, w, fuel, tr);
      PassesBody(rest, Behind(s, bound), if s.Let? then env[s.x := r.v] else env, variants, w, fuel, r.tr);
  }

  // ---------------------------------------------------------------- the names a pattern may bind

  function Vars(p: Pattern): set<string>
    decreases p, 1
  {
    match p
    case IdentPat(x) => {x}
    case VariantPat(_, sub) => VarsAll(sub)
    case ProductPat(sub) => VarsAll(sub)
    case _ => {}
  }

  function VarsAll(ps: seq<Pattern>): set<string>
    decreases ps, 0
  {
    if ps == [] then {} else Vars(ps[0]) + VarsAll(ps[1..])
  }

  ghost predicate Among(bs: Bindings, xs: set<string>) { forall b :: b in bs ==> b.0 in xs }

  lemma {:induction false} SubBinds(p: Pattern, v: Value, variants: Variants)
    requires MatchSub(p, v, variants).Some?
    ensures Among(MatchSub(p, v, variants).value, Vars(p))
    decreases p, 1
  {
    match p
    case VariantPat(_, sub) => FieldsBind(sub, v, 0, variants);
    case ProductPat(sub) => FieldsBind(sub, v, 0, variants);
    case _ =>
  }

  lemma {:induction false} FieldsBind(ps: seq<Pattern>, v: Value, i: nat, variants: Variants)
    requires MatchFields(ps, v, i, variants).Some?
    ensures Among(MatchFields(ps, v, i, variants).value, VarsAll(ps))
    decreases ps, 0
  {
    if ps != [] {
      SubBinds(ps[0], FieldOf(v, i), variants);
      FieldsBind(ps[1..], v, i + 1, variants);
    }
  }

  lemma CompBinds(p: Pattern, v: Value, compType: string, variants: Variants)
    requires MatchComp(p, v, compType, variants).Some?
    ensures Among(MatchComp(p, v, compType, variants).value, Vars(p))
  {
    if MatchSub(p, v, variants).Some? { SubBinds(p, v, variants); }
  }

  lemma {:induction false} CompsBind(ps: seq<Pattern>, vs: seq<Value>, compTypes: seq<string>, variants: Variants)
    requires |ps| == |vs| == |compTypes| && MatchComps(ps, vs, compTypes, variants).Some?
    ensures Among(MatchComps(ps, vs, compTypes, variants).value, VarsAll(ps))
    decreases |ps|
  {
    if ps != [] {
      CompBinds(ps[0], vs[0], compTypes[0], variants);
      CompsBind(ps[1..], vs[1..], compTypes[1..], variants);
    }
  }

  /** The arm chosen binds names of its pattern. */
  lemma {:induction false} ChosenBinds(ps: seq<Pattern>, vs: seq<Value>, s: SubjectShape, variants: Variants)
    requires |vs| == Width(s) && FirstMatch(ps, vs, s, variants).Some?
    ensures var (i, bs) := FirstMatch(ps, vs, s, variants).value; i < |ps| && Among(bs, Vars(ps[i]))
    decreases |ps|
  {
    var m := MatchArm(ps[0], vs, s, variants);
    if m.None? {
      ChosenBinds(ps[1..], vs, s, variants);
    } else if s.Single? {
      CompBinds(ps[0], vs[0], "", variants);
    } else if ps[0].ProductPat? {
      CompsBind(ps[0].sub, vs, s.compTypes, variants);
    }
  }

  /** The variables in scope in an arm. */
  lemma ArmScope(n: Node, vs: seq<Value>, env: Env, bound: set<string>, variants: Variants)
    requires n.Match? && |vs| == Width(Shape(n.on)) && FirstMatch(PatternsOf(n.arms), vs, Shape(n.on), variants).Some?
    requires env.Keys <= bound
    ensures var (i, bs) := FirstMatch(PatternsOf(n.arms), vs, Shape(n.on), variants).value;
            Extend(env, bs).Keys <= bound + Vars(n.arms[i].pattern)
  {
    var (i, bs) := FirstMatch(PatternsOf(n.arms), vs, Shape(n.on), variants).value;
    ChosenBinds(PatternsOf(n.arms), vs, Shape(n.on), variants);
    ExtendKeys(env, bs);
  }

  // ---------------------------------------------------------------- a run depends on the answers it gets

  /** The same answers for the histories of lo up to hi events. */
  ghost predicate SameOn(w: World, w': World, lo: nat, hi: nat) {
    && (forall id: int, env: Env, t: Trace :: lo <= |t| < hi ==> w.eval(id, env, t) == w'.eval(id, env, t))
    && (forall id: int, env: Env, t: Trace :: lo <= |t| < hi ==> w.next(id, env, t) == w'.next(id, env, t))
    && (forall id: int, env: Env, t: Trace :: lo <= |t| < hi ==> w.choose(id, env, t) == w'.choose(id, env, t))
  }

  function ChooseUntil(w: World, w': World, k: nat, id: int, env: Env, t: Trace): nat {
    if |t| < k then w.choose(id, env, t) else w'.choose(id, env, t)
  }

  /** Up to history k the one world, from there on the other. */
  function Until(w: World, w': World, k: nat): World {
    World((id, env, t: Trace) => if |t| < k then w.eval(id, env, t) else w'.eval(id, env, t),
          (id, env, t: Trace) => if |t| < k then w.next(id, env, t) else w'.next(id, env, t),
          (id, env, t: Trace) => ChooseUntil(w, w', k, id, env, t))
  }

  lemma UntilIs(w: World, w': World, lo: nat, k: nat, hi: nat)
    ensures SameOn(w, Until(w, w', k), lo, k) && SameOn(w', Until(w, w', k), k, hi)
  {
  }

  lemma {:induction false} AtomsGrow(ids: seq<int>, env: Env, w: World, tr: Trace)
    ensures |EvalAtoms(ids, env, w, tr).1| >= |tr|
    decreases |ids|
  {
    if ids != [] && EvalAtom(ids[0], env, w, tr).Norm? { AtomsGrow(ids[1..], env, w, EvalAtom(ids[0], env, w, tr).tr); }
  }

  /** A run only adds to the history. */
  lemma {:induction false} Grows(n: Node, env: Env, variants: Variants, w: World, fuel: nat, tr: Trace)
    ensures var r := Exec(n, env, variants, w, fuel, tr); r.OutOfFuel? || |r.tr| >= |tr|
    decreases fuel, n, 1
  {
    match n
    case Paren(inner) => Grows(inner, env, variants, w, fuel, tr);
    case Return(Some(v)) => Grows(v, env, variants, w, fuel, tr);
    case Block(body) => GrowsBody(body, env, variants, w, fuel, tr);
    case If(_, cond, thn, els) =>
      var c := EvalAtom(cond, env, w, tr);
      if c.Norm? {
        if Truthy(c.v) { Grows(thn, env, variants, w, fuel, c.tr); }
        else if els.Some? { Grows(els.value, env, variants, w, fuel, c.tr); }
      }
    case Match(on, arms) =>
      EvalAtomsLength(Ids(on), env, w, tr);
      AtomsGrow(Ids(on), env, w, tr);
      var (vs, tr') := EvalAtoms(Ids(on), env, w, tr);
      if vs.Some? {
        var m := FirstMatch(PatternsOf(arms), vs.value, Shape(on), variants);
        if m.Some? { Grows(arms[m.value.0].body, Extend(env, m.value.1), variants, w, fuel, tr'); }
      }
    case Catch(_, subject, name, handler) =>
      var s := EvalAtom(subject, env, w, tr);
      if s.Norm? && IsErr(s.v) { Grows(handler, Bind1(env, name, ErrorOf(s.v)), variants, w, fuel, s.tr); }
    case Let(_, init) => Grows(init, env, variants, w, fuel, tr);
    case Loop(_, _, _, _) => GrowsLoop(n, env, variants, w, fuel, tr);
    case Select(id, cases) =>
      if cases != [] { Grows(cases[w.choose(id, env, tr) % |cases|], env, variants, w, fuel, tr + [Event(id, env)]); }
    case _ =>
  }

  lemma {:induction false} GrowsBody(b: Body, env: Env, variants: Variants, w: World, fuel: nat, tr: Trace)
    ensures var r := ExecBody(b, env, variants, w, fuel, tr); r.OutOfFuel? || |r.tr| >= |tr|
    decreases fuel, b, 0
  {
    match b
    case End =>
    case Value(e) => Grows(e, env, variants, w, fuel, tr);
    case Stmt(s, rest) =>
      Grows(s, env, variants, w, fuel, tr);
      var r := Exec(s, env, variants, w, fuel, tr);
      if r.Norm? { GrowsBody(rest, if s.Let? then env[s.x := r.v] else env, variants, w, fuel, r.tr); }
  }

  lemma {:induction false} GrowsLoop(n: Node, env: Env, variants: Variants, w: World, fuel: nat, tr: Trace)
    requires n.Loop?
    ensures var r := ExecLoop(n, env, variants, w, fuel, tr); r.OutOfFuel? || |r.tr| >= |tr|
    decreases fuel, n, 0
  {
    if fuel > 0 {
      var next := w.next(n.head, env, tr);
      if next.Some? && next.value.Some? {
        var env', tr' := Bind1(env, n.name, next.value.value), tr + [Event(n.head, env)];
        Grows(n.body, env', variants, w, fuel - 1, tr');
        var r := Exec(n.body, env', variants, w, fuel - 1, tr');
        if r.Norm? || r.Cont? { GrowsLoop(n, env, variants, w, fuel - 1, r.tr); }
      }
    }
  }

  lemma {:induction false} AtomsLocal(ids: seq<int>, env: Env, w: World, w': World, tr: Trace)
    requires SameOn(w, w', |tr|, |EvalAtoms(ids, env, w, tr).1|)
    ensures EvalAtoms(ids, env, w', tr) == EvalAtoms(ids, env, w, tr)
    decreases |ids|
  {
    if ids != [] {
      var r := EvalAtom(ids[0], env, w, tr);
      if r.Norm? {
        AtomsGrow(ids[1..], env, w, r.tr);
        AtomsLocal(ids[1..], env, w, w', r.tr);
      }
    }
  }

  /** Other worlds that give the same answers up to the end of a run run the same. */
  lemma {:induction false} Local(n: Node, env: Env, variants: Variants, w: World, w': World, fuel: nat, tr: Trace)
    requires var r := Exec(n, env, variants, w, fuel, tr); !r.OutOfFuel? && SameOn(w, w', |tr|, |r.tr|)
    ensures Exec(n, env, variants, w', fuel, tr) == Exec(n, env, variants, w, fuel, tr)
    decreases fuel, n, 1
  {
    match n
    case Paren(inner) => Local(inner, env, variants, w, w', fuel, tr);
    case Return(Some(v)) => Local(v, env, variants, w, w', fuel, tr);
    case Block(body) => LocalBody(body, env, variants, w, w', fuel, tr);
    case If(_, cond, thn, els) =>
      var c := EvalAtom(cond, env, w, tr);
      if c.Norm? {
        if Truthy(c.v) {
          Grows(thn, env, variants, w, fuel, c.tr);
          Local(thn, env, variants, w, w', fuel, c.tr);
        } else if els.Some? {
          Grows(els.value, env, variants, w, fuel, c.tr);
          Local(els.value, env, variants, w, w', fuel, c.tr);
        }
      }
    case Match(_, _) => LocalMatch(n, env, variants, w, w', fuel, tr);
    case Catch(_, subject, name, handler) =>
      var s := EvalAtom(subject, env, w, tr);
      if s.Norm? && IsErr(s.v) {
        var env' := Bind1(env, name, ErrorOf(s.v));
        Grows(handler, env', variants, w, fuel, s.tr);
        Local(handler, env', variants, w, w', fuel, s.tr);
      }
    case Let(_, init) => Local(init, env, variants, w, w', fuel, tr);
    case Loop(_, _, _, _) => LocalLoop(n, env, variants, w, w', fuel, tr);
    case Select(id, cases) =>
      if cases != [] {
        var k, tr' := w.choose(id, env, tr) % |cases|, tr + [Event(id, env)];
        Grows(cases[k], env, variants, w, fuel, tr');
        Local(cases[k], env, variants, w, w', fuel, tr');
      }
    case _ =>
  }

  lemma {:induction false} LocalMatch(n: Node, env: Env, variants: Variants, w: World, w': World, fuel: nat, tr: Trace)
    requires n.Match?
    requires var r := Exec(n, env, variants, w, fuel, tr); !r.OutOfFuel? && SameOn(w, w', |tr|, |r.tr|)
    ensures Exec(n, env, variants, w', fuel, tr) == Exec(n, env, variants, w, fuel, tr)
    decreases fuel, n, 0
  {
    EvalAtomsLength(Ids(n.on), env, w, tr);
    AtomsGrow(Ids(n.on), env, w, tr);
    var (vs, tr') := EvalAtoms(Ids(n.on), env, w, tr);
    if vs.Some? {
      var m := FirstMatch(PatternsOf(n.arms), vs.value, Shape(n.on), variants);
      if m.Some? {
        Grows(n.arms[m.value.0].body, Extend(env, m.value.1), variants, w, fuel, tr');
        Local(n.arms[m.value.0].body, Extend(env, m.value.1), variants, w, w', fuel, tr');
      }
    }
    AtomsLocal(Ids(n.on), env, w, w', tr);
  }

  lemma {:induction false} LocalBody(b: Body, env: Env, variants: Variants, w: World, w': World, fuel: nat, tr: Trace)
    requires var r := ExecBody(b, env, variants, w, fuel, tr); !r.OutOfFuel? && SameOn(w, w', |tr|, |r.tr|)
    ensures ExecBody(b, env, variants, w', fuel, tr) == ExecBody(b, env, variants, w, fuel, tr)
    decreases fuel, b, 0
  {
    match b
    case End =>
    case Value(e) => Local(e, env, variants, w, w', fuel, tr);
    case Stmt(s, rest) =>
      var r := Exec(s, env, variants, w, fuel, tr);
      Grows(s, env, variants, w, fuel, tr);
      if r.Norm? {
        var env' := if s.Let? then env[s.x := r.v] else env;
        GrowsBody(rest, env', variants, w, fuel, r.tr);
        LocalBody(rest, env', variants, w, w', fuel, r.tr);
      }
      Local(s, env, variants, w, w', fuel, tr);
  }

  lemma {:induction false} LocalLoop(n: Node, env: Env, variants: Variants, w: World, w': World, fuel: nat, tr: Trace)
    requires n.Loop?
    requires var r := ExecLoop(n, env, variants, w, fuel, tr); !r.OutOfFuel? && SameOn(w, w', |tr|, |r.tr|)
    ensures ExecLoop(n, env, variants, w', fuel, tr) == ExecLoop(n, env, variants, w, fuel, tr)
    decreases fuel, n, 0
  {
    var next := w.next(n.head, env, tr);
    if next.Some? && next.value.Some? {
      var env', tr' := Bind1(env, n.name, next.value.value), tr + [Event(n.head, env)];
      var r := Exec(n.body, env', variants, w, fuel - 1, tr');
      Grows(n.body, env', variants, w, fuel - 1, tr');
      if r.Norm? || r.Cont? {
        GrowsLoop(n, env, variants, w, fuel - 1, r.tr);
        LocalLoop(n, env, variants, w, w', fuel - 1, r.tr);
      }
      Local(n.body, env', variants, w, w', fuel - 1, tr');
    }
  }

  // ---------------------------------------------------------------- what can run to its end does, in some world

  /** Every atom is v, every loop ends at once, and a select takes case k. */
  function Always(v: Value, k: nat): World { World((_, _, _) => Some(v), (_, _, _) => Some(None), (_, _, _) => k) }

  /** The first answer is v; w gives the others. */
  function First(v: Value, k: nat, w: World, tr: Trace): World { Until(Always(v, k), w, |tr| + 1) }

  lemma FirstAnswers(v: Value, k: nat, w: World, tr: Trace, id: int, env: Env)
    ensures var w' := First(v, k, w, tr);
            EvalAtom(id, env, w', tr) == Norm(v, tr + [Event(id, env)]) && w'.choose(id, env, tr) == k
  {
  }

  /** A statement behind one that runs to its end. */
  lemma AfterFirst(n: Node, v: Value, k: nat, w: World, env: Env, variants: Variants, fuel: nat, tr: Trace, e: Event)
    requires Exec(n, env, variants, w, fuel, tr + [e]).Norm?
    ensures Exec(n, env, variants, First(v, k, w, tr), fuel, tr + [e]).Norm?
  {
    hide Exec;
    var r := Exec(n, env, variants, w, fuel, tr + [e]);
    UntilIs(Always(v, k), w, |tr|, |tr| + 1, |r.tr|);
    Local(n, env, variants, w, First(v, k, w, tr), fuel, tr + [e]);
  }

  /** Each component is the next value. */
  lemma {:induction false} Components(ids: seq<int>, vs: seq<Value>, env: Env, tr: Trace) returns (w: World, tr': Trace)
    requires |vs| == |ids|
    ensures EvalAtoms(ids, env, w, tr) == (Some(vs), tr')
    decreases |ids|
  {
    if ids == [] {
      w, tr' := Always(UNIT, 0), tr;
    } else {
      w, tr' := Components(ids[1..], vs[1..], env, tr + [Event(ids[0], env)]);
      var w1 := First(vs[0], 0, w, tr);
      FirstAnswers(vs[0], 0, w, tr, ids[0], env);
      UntilIs(Always(vs[0], 0), w, |tr|, |tr| + 1, |tr'|);
      AtomsLocal(ids[1..], env, w, w1, tr + [Event(ids[0], env)]);
      assert [vs[0]] + vs[1..] == vs;
      w := w1;
    }
  }

  lemma {:induction false} Pass(n: Node, env: Env, variants: Variants, fuel: nat, tr: Trace) returns (w: World)
    requires CanPass(n, env.Keys, variants) && fuel > 0
    ensures Exec(n, env, variants, w, fuel, tr).Norm?
    decreases n, 1
  {
    match n
    case Paren(inner) => w := Pass(inner, env, variants, fuel, tr);
    case Block(body) => w := PassBody(body, env, variants, fuel, tr);
    case If(_, _, _, _) => w := PassIf(n, env, variants, fuel, tr);
    case Match(_, _) => w := PassMatch(n, env, variants, fuel, tr);
    case Let(_, init) => w := Pass(init, env, variants, fuel, tr);
    case Select(_, _) => w := PassSelect(n, env, variants, fuel, tr);
    case _ => w := PassLeaf(n, env, variants, fuel, tr);
  }

  lemma PassLeaf(n: Node, env: Env, variants: Variants, fuel: nat, tr: Trace) returns (w: World)
    requires CanPass(n, env.Keys, variants) && fuel > 0 && (n.Atom? || n.Call? || n.Name? || n.Loop? || n.Catch?)
    ensures Exec(n, env, variants, w, fuel, tr).Norm?
  {
    w := Always(Sum(0, []), 0);
    if n.Loop? { LoopEnds(n, env, variants, fuel, tr); }
  }

  lemma LoopEnds(n: Node, env: Env, variants: Variants, fuel: nat, tr: Trace)
    requires n.Loop? && fuel > 0
    ensures ExecLoop(n, env, variants, Always(Sum(0, []), 0), fuel, tr).Norm?
  {
  }

  lemma {:induction false} PassSelect(n: Node, env: Env, variants: Variants, fuel: nat, tr: Trace) returns (w: World)
    requires n.Select? && CanPass(n, env.Keys, variants) && fuel > 0
    ensures Exec(n, env, variants, w, fuel, tr).Norm?
    decreases n, 0
  {
    var i :| 0 <= i < |n.cases| && CanPass(n.cases[i], env.Keys, variants);
    var e := Event(n.id, env);
    w := Pass(n.cases[i], env, variants, fuel, tr + [e]);
    AfterFirst(n.cases[i], UNIT, i, w, env, variants, fuel, tr, e);
    FirstAnswers(UNIT, i, w, tr, n.id, env);
    w := First(UNIT, i, w, tr);
  }

  lemma {:induction false} PassIf(n: Node, env: Env, variants: Variants, fuel: nat, tr: Trace) returns (w: World)
    requires n.If? && CanPass(n, env.Keys, variants) && fuel > 0
    ensures Exec(n, env, variants, w, fuel, tr).Norm?
    decreases n, 0
  {
    var e := Event(n.cond, env);
    if CanPass(n.thn, env.Keys, variants) {
      w := Pass(n.thn, env, variants, fuel, tr + [e]);
      AfterFirst(n.thn, Prim(1), 0, w, env, variants, fuel, tr, e);
      FirstAnswers(Prim(1), 0, w, tr, n.cond, env);
      w := First(Prim(1), 0, w, tr);
    } else if n.els.Some? {
      w := Pass(n.els.value, env, variants, fuel, tr + [e]);
      AfterFirst(n.els.value, Prim(0), 0, w, env, variants, fuel, tr, e);
      FirstAnswers(Prim(0), 0, w, tr, n.cond, env);
      w := First(Prim(0), 0, w, tr);
    } else {
      w := Always(Prim(0), 0);
    }
  }

  lemma {:induction false} PassMatch(n: Node, env: Env, variants: Variants, fuel: nat, tr: Trace) returns (w: World)
    requires n.Match? && CanPass(n, env.Keys, variants) && fuel > 0
    ensures Exec(n, env, variants, w, fuel, tr).Norm?
    decreases n, 0
  {
    var ps, shape := PatternsOf(n.arms), Shape(n.on);
    var vs :| |vs| == Width(shape) &&
      (match FirstMatch(ps, vs, shape, variants)
       case Some((i, bs)) => CanPass(n.arms[i].body, env.Keys + NamesOf(bs), variants)
       case None => true);
    var w1, tr' := Components(Ids(n.on), vs, env, tr);
    w := w1;
    if FirstMatch(ps, vs, shape, variants).Some? {
      var (i, bs) := FirstMatch(ps, vs, shape, variants).value;
      ExtendKeys(env, bs);
      var w2 := Pass(n.arms[i].body, Extend(env, bs), variants, fuel, tr');
      w := Until(w1, w2, |tr'|);
      UntilIs(w1, w2, |tr|, |tr'|, |Exec(n.arms[i].body, Extend(env, bs), variants, w2, fuel, tr').tr|);
      AtomsLocal(Ids(n.on), env, w1, w, tr);
      Local(n.arms[i].body, Extend(env, bs), variants, w2, w, fuel, tr');
    }
  }

  lemma {:induction false} PassBody(b: Body, env: Env, variants: Variants, fuel: nat, tr: Trace) returns (w: World)
    requires CanPassBody(b, env.Keys, variants) && fuel > 0
    ensures ExecBody(b, env, variants, w, fuel, tr).Norm?
    decreases b, 0
  {
    match b
    case End => w := Always(UNIT, 0);
    case Value(e) => w := Pass(e, env, variants, fuel, tr);
    case Stmt(s, rest) =>
      var w1 := Pass(s, env, variants, fuel, tr);
      var r := Exec(s, env, variants, w1, fuel, tr);
      var env' := if s.Let? then env[s.x := r.v] else env;
      assert env'.Keys == Behind(s, env.Keys);
      var w2 := PassBody(rest, env', variants, fuel, r.tr);
      w := Until(w1, w2, |r.tr|);
      UntilIs(w1, w2, |tr|, |r.tr|, |ExecBody(rest, env', variants, w2, fuel, r.tr).tr|);
      Local(s, env, variants, w1, w, fuel, tr);
      LocalBody(rest, env', variants, w2, w, fuel, r.tr);
  }

  // ---------------------------------------------------------------- what the predicate accepts

  /** A leaf the predicate relies on is a call whose callee is shadowed, and all in front of it
      can be passed. */
  ghost predicate Escapes(b: Body, bound: set<string>, variants: Variants)
    decreases b, 0
  {
    match b
    case End => false
    case Value(e) => ExprEscapes(e, bound, variants)
    case Stmt(s, End) => StmtEscapes(s, bound, variants)
    case Stmt(s, rest) => CanPass(s, bound, variants) && Escapes(rest, Behind(s, bound), variants)
  }

  ghost predicate ExprEscapes(e: Node, bound: set<string>, variants: Variants)
    decreases e, 1
  {
    match e
    case Paren(inner) => ExprEscapes(inner, bound, variants)
    case Call(_, c) => Recognised(c) && Root(c) in bound
    case Block(body) => Escapes(body, bound, variants)
    case _ => false
  }

  ghost predicate StmtEscapes(s: Node, bound: set<string>, variants: Variants)
    decreases s, 2
  {
    match s
    case If(_, _, thn, els) =>
      || (thn.Block? && Escapes(thn.stmts, bound, variants))
      || (els.Some? && StmtEscapes(els.value, bound, variants))
    case _ => ExprEscapes(s, bound, variants)
  }

  lemma {:induction false} EscapesIsPass(b: Body, bound: set<string>, variants: Variants)
    requires BlockDiverges(b)
    ensures CanPassBody(b, bound, variants) <==> Escapes(b, bound, variants)
    decreases b, 0
  {
    match b
    case Value(e) => ExprEscapesIsPass(e, bound, variants);
    case Stmt(s, rest) => if rest.End? { StmtEscapesIsPass(s, bound, variants); } else { EscapesIsPass(rest, Behind(s, bound), variants); }
  }

  lemma {:induction false} ExprEscapesIsPass(e: Node, bound: set<string>, variants: Variants)
    requires ExprDiverges(e)
    ensures CanPass(e, bound, variants) <==> ExprEscapes(e, bound, variants)
    decreases e, 1
  {
    match e
    case Paren(inner) => ExprEscapesIsPass(inner, bound, variants);
    case Block(body) => EscapesIsPass(body, bound, variants);
    case _ =>
  }

  lemma {:induction false} StmtEscapesIsPass(s: Node, bound: set<string>, variants: Variants)
    requires StmtDiverges(s)
    ensures CanPass(s, bound, variants) <==> StmtEscapes(s, bound, variants)
    decreases s, 2
  {
    if s.If? {
      var els := s.els.value;
      EscapesIsPass(s.thn.stmts, bound, variants);
      if els.Block? { EscapesIsPass(els.stmts, bound, variants); } else { StmtEscapesIsPass(els, bound, variants); }
      assert StmtEscapes(els, bound, variants) <==> CanPass(els, bound, variants);
    } else {
      ExprEscapesIsPass(s, bound, variants);
    }
  }

  /** The block falls through with a value in some world. */
  ghost predicate FallsThrough(b: Body, env: Env, variants: Variants) {
    exists w, fuel, tr :: ExecBody(b, env, variants, w, fuel, tr).Norm?
  }

  /** A block that BlockDiverges accepts never falls through, in any world, if and only if no
      callee it relies on is shadowed where the call can be reached. */
  lemma DivergenceIsExact(b: Body, env: Env, variants: Variants)
    requires BlockDiverges(b)
    ensures !FallsThrough(b, env, variants) <==> !Escapes(b, env.Keys, variants)
  {
    EscapesIsPass(b, env.Keys, variants);
    if Escapes(b, env.Keys, variants) {
      var w := PassBody(b, env, variants, 1, []);
      assert ExecBody(b, env, variants, w, 1, []).Norm?;
    } else {
      forall w, fuel, tr ensures !ExecBody(b, env, variants, w, fuel, tr).Norm? {
        if ExecBody(b, env, variants, w, fuel, tr).Norm? { PassesBody(b, env.Keys, env, variants, w, fuel, tr); }
      }
    }
  }

  /** What holds of one run, also where more names are taken to be in scope than are. */
  lemma DivergenceIsSound(b: Body, bound: set<string>, env: Env, variants: Variants, w: World, fuel: nat, tr: Trace)
    requires BlockDiverges(b) && !Escapes(b, bound, variants) && env.Keys <= bound
    ensures !ExecBody(b, env, variants, w, fuel, tr).Norm?
  {
    EscapesIsPass(b, bound, variants);
    if ExecBody(b, env, variants, w, fuel, tr).Norm? { PassesBody(b, bound, env, variants, w, fuel, tr); }
  }

  lemma ExprDivergenceIsSound(e: Node, bound: set<string>, env: Env, variants: Variants, w: World, fuel: nat, tr: Trace)
    requires ExprDiverges(e) && !ExprEscapes(e, bound, variants) && env.Keys <= bound
    ensures !Exec(e, env, variants, w, fuel, tr).Norm?
  {
    ExprEscapesIsPass(e, bound, variants);
    if Exec(e, env, variants, w, fuel, tr).Norm? { Passes(e, bound, env, variants, w, fuel, tr); }
  }

  lemma StmtDivergenceIsSound(s: Node, bound: set<string>, env: Env, variants: Variants, w: World, fuel: nat, tr: Trace)
    requires StmtDiverges(s) && !StmtEscapes(s, bound, variants) && env.Keys <= bound
    ensures !Exec(s, env, variants, w, fuel, tr).Norm?
  {
    StmtEscapesIsPass(s, bound, variants);
    if Exec(s, env, variants, w, fuel, tr).Norm? { Passes(s, bound, env, variants, w, fuel, tr); }
  }
}
