/** The lowered switch against Aril's first-match rule. */
module PatternProofs {
  import opened Wrappers
  import opened Patterns

  // ---------------------------------------------------------------- bindings

  lemma BoundConcat(a: seq<Bind>, b: seq<Bind>, vs: seq<Value>)
    ensures Bound(a + b, vs) == Bound(a, vs) + Bound(b, vs)
  {
    if a == [] {
      assert a + b == b;
    } else {
      assert (a + b)[0] == a[0] && (a + b)[1..] == a[1..] + b;
    }
  }

  /** The emitted `name := path` lines bind what the sub-pattern binds. */
  lemma {:induction false} BindSubAgrees(p: Pattern, path: Path, vs: seq<Value>, variants: Variants)
    requires BindSub(p, path).Some?
    ensures MatchSub(p, PathValue(path, vs), variants) == Some(Bound(BindSub(p, path).value, vs))
    decreases p, 1
  {
    match p
    case IdentPat(x) =>
      var b := [(x, PathValue(path, vs))];
      assert b + [] == b && Bound([Bind(x, path)], vs) == b + Bound([], vs);
    case Wildcard =>
    case ProductPat(sub) => BindComponentsAgree(sub, path, 0, vs, variants);
  }

  lemma {:induction false} BindComponentsAgree(ps: seq<Pattern>, path: Path, i: nat, vs: seq<Value>, variants: Variants)
    requires BindComponents(ps, path, i).Some?
    ensures MatchFields(ps, PathValue(path, vs), i, variants) == Some(Bound(BindComponents(ps, path, i).value, vs))
    decreases ps, 0
  {
    if ps != [] {
      BindSubAgrees(ps[0], Component(path, i), vs, variants);
      BindComponentsAgree(ps[1..], path, i + 1, vs, variants);
      BoundConcat(BindSub(ps[0], Component(path, i)).value, BindComponents(ps[1..], path, i + 1).value, vs);
    }
  }

  lemma {:induction false} BindPayloadAgrees(ps: seq<Pattern>, path: Path, tag: int, i: nat, vs: seq<Value>, variants: Variants)
    requires BindPayload(ps, path, tag, i).Some?
    requires var v := PathValue(path, vs); v.Sum? && v.tag == tag
    ensures MatchFields(ps, PathValue(path, vs), i, variants) == Some(Bound(BindPayload(ps, path, tag, i).value, vs))
  {
    if ps != [] {
      BindSubAgrees(ps[0], Payload(path, tag, i), vs, variants);
      BindPayloadAgrees(ps[1..], path, tag, i + 1, vs, variants);
      BoundConcat(BindSub(ps[0], Payload(path, tag, i)).value, BindPayload(ps[1..], path, tag, i + 1).value, vs);
    }
  }

  // ---------------------------------------------------------------- tests

  /** P-Alt of the type system: the atoms of an alternative are literals and nullary variants. */
  predicate PlainAlternatives(p: Pattern) {
    p.AltPat? ==> forall a :: a in p.atoms && a.VariantPat? ==> a.sub == []
  }

  lemma SingleCond(c: Check, vs: seq<Value>)
    requires |vs| > 0
    ensures ConjHolds([Cond(0, c)], vs) <==> CheckHolds(c, vs[0])
  {
    assert Cond(0, c) in [Cond(0, c)];
  }

  lemma {:induction false} AtomsAgree(atoms: seq<Pattern>, vs: seq<Value>, variants: Variants)
    requires |vs| > 0 && CaseValues(atoms, variants).Some?
    requires forall a :: a in atoms && a.VariantPat? ==> a.sub == []
    ensures TestHolds(Case(CaseValues(atoms, variants).value), vs) <==> MatchesAny(atoms, vs[0], variants)
  {
    if atoms != [] {
      AtomsAgree(atoms[1..], vs, variants);
      var c, rest := CaseValue(atoms[0], variants).value, CaseValues(atoms[1..], variants).value;
      SingleCond(c, vs);
      var alts := [[Cond(0, c)]] + rest;
      assert forall cs :: cs in alts <==> cs == [Cond(0, c)] || cs in rest;
      assert MatchFields([], vs[0], 0, variants) == Some([]);
      assert CheckHolds(c, vs[0]) <==> MatchAtom(atoms[0], vs[0], variants);
    }
  }

  lemma SingleArmAgrees(p: Pattern, vs: seq<Value>, variants: Variants)
    requires |vs| == 1 && PlainAlternatives(p) && LowerArm(p, Single, variants).Some?
    ensures var (t, bs) := LowerArm(p, Single, variants).value;
            && (t.Default? || TestHolds(t, vs) <==> MatchArm(p, vs, Single, variants).Some?)
            && (t.Default? || TestHolds(t, vs) ==> MatchArm(p, vs, Single, variants) == Some(Bound(bs, vs)))
  {
    var (t, bs) := LowerArm(p, Single, variants).value;
    match p
    case AltPat(atoms) => AtomsAgree(atoms, vs, variants);
    case Wildcard =>
    case UnitPat =>
    case LitPat(n) =>
      SingleCond(ValueIs(n), vs);
      assert t.alts == [[Cond(0, ValueIs(n))]];
    case IdentPat(x) =>
      SingleCond(TagIs(variants[x].tag), vs);
      assert t.alts == [[Cond(0, TagIs(variants[x].tag))]];
    case VariantPat(c, sub) =>
      var tag := variants[c].tag;
      SingleCond(TagIs(tag), vs);
      assert t.alts == [[Cond(0, TagIs(tag))]];
      assert TestHolds(t, vs) <==> CheckHolds(TagIs(tag), vs[0]);
      assert sub == [] ==> MatchFields(sub, vs[0], 0, variants) == Some([]);
      if TestHolds(t, vs) && sub != [] { BindPayloadAgrees(sub, Temp(0), tag, 0, vs, variants); }
  }

  lemma CompAgrees(p: Pattern, j: nat, vs: seq<Value>, compType: string, variants: Variants)
    requires j < |vs| && CompCond(p, j, compType, variants).Some? && CompBinds(p, j, compType, variants).Some?
    ensures var c := CompCond(p, j, compType, variants).value;
            var m := MatchComp(p, vs[j], compType, variants);
            && ((c.Some? ==> CondHolds(c.value, vs)) <==> m.Some?)
            && (m.Some? ==> m == Some(Bound(CompBinds(p, j, compType, variants).value, vs)))
  {
    match p
    case VariantPat(c, sub) =>
      assert sub == [] ==> MatchFields(sub, vs[j], 0, variants) == Some([]);
      if vs[j].Sum? && vs[j].tag == variants[c].tag && sub != [] {
        BindPayloadAgrees(sub, Temp(j), variants[c].tag, 0, vs, variants);
      }
    case IdentPat(x) =>
      if !IsConstructor(x, compType, variants) { BindSubAgrees(p, Temp(j), vs, variants); }
    case _ =>
  }

  lemma {:induction false} CompsAgree(ps: seq<Pattern>, j: nat, vs: seq<Value>, compTypes: seq<string>, variants: Variants)
    requires |vs| == |compTypes| && j + |ps| == |vs|
    requires TupleConds(ps, j, compTypes, variants).Some? && TupleBinds(ps, j, compTypes, variants).Some?
    ensures var m := MatchComps(ps, vs[j..], compTypes[j..], variants);
            && (ConjHolds(TupleConds(ps, j, compTypes, variants).value, vs) <==> m.Some?)
            && (m.Some? ==> m == Some(Bound(TupleBinds(ps, j, compTypes, variants).value, vs)))
    decreases |ps|
  {
    if ps != [] {
      CompAgrees(ps[0], j, vs, compTypes[j], variants);
      CompsAgree(ps[1..], j + 1, vs, compTypes, variants);
      assert vs[j..][0] == vs[j] && vs[j..][1..] == vs[j + 1..];
      assert compTypes[j..][0] == compTypes[j] && compTypes[j..][1..] == compTypes[j + 1..];
      BoundConcat(CompBinds(ps[0], j, compTypes[j], variants).value, TupleBinds(ps[1..], j + 1, compTypes, variants).value, vs);
      var c := CompCond(ps[0], j, compTypes[j], variants).value;
      var cs := TupleConds(ps[1..], j + 1, compTypes, variants).value;
      if c.Some? {
        var all := [c.value] + cs;
        assert forall x :: x in all <==> x == c.value || x in cs;
      }
    }
  }

  /** One arm: its clause is chosen exactly on the values its pattern matches, and its
      lines bind exactly what the pattern binds. */
  lemma ArmAgrees(p: Pattern, vs: seq<Value>, s: SubjectShape, variants: Variants)
    requires |vs| == Width(s) && PlainAlternatives(p) && LowerArm(p, s, variants).Some?
    ensures var (t, bs) := LowerArm(p, s, variants).value;
            && (t.Default? || TestHolds(t, vs) <==> MatchArm(p, vs, s, variants).Some?)
            && (t.Default? || TestHolds(t, vs) ==> MatchArm(p, vs, s, variants) == Some(Bound(bs, vs)))
  {
    match s
    case Single => SingleArmAgrees(p, vs, variants);
    case Tuple(compTypes) =>
      match p
      case Wildcard =>
      case ProductPat(sub) =>
        CompsAgree(sub, 0, vs, compTypes, variants);
        assert vs[0..] == vs && compTypes[0..] == compTypes;
        var conds := TupleConds(sub, 0, compTypes, variants).value;
        var t := LowerArm(p, s, variants).value.0;
        assert t.Case? ==> t.alts == [conds];
  }

  // ---------------------------------------------------------------- default clauses

  lemma {:induction false} EmptyIffCatchAll(ps: seq<Pattern>, j: nat, compTypes: seq<string>, variants: Variants)
    requires j + |ps| == |compTypes| && TupleConds(ps, j, compTypes, variants).Some?
    ensures TupleConds(ps, j, compTypes, variants).value == [] <==> TupleArmIsCatchAll(ps, j, compTypes, variants)
    decreases |ps|
  {
    if ps != [] { EmptyIffCatchAll(ps[1..], j + 1, compTypes, variants); }
  }

  /** The predicate that decides whether an unreachable guard follows the switch is
      right about the switch that was emitted. */
  lemma {:induction false} EmitsDefaultIffDefault(ps: seq<Pattern>, s: SubjectShape, variants: Variants)
    requires LowerArms(ps, s, variants).Some?
    ensures MatchEmitsDefault(ps, s, variants) <==> FirstDefault(Tests(LowerArms(ps, s, variants).value)).Some?
  {
    if ps != [] {
      var arms := LowerArms(ps, s, variants).value;
      EmitsDefaultIffDefault(ps[1..], s, variants);
      assert arms[1..] == LowerArms(ps[1..], s, variants).value;
      assert Tests(arms)[1..] == Tests(arms[1..]);
      if s.Tuple? && ps[0].ProductPat? { EmptyIffCatchAll(ps[0].sub, 0, s.compTypes, variants); }
      assert ArmEmitsDefault(ps[0], s, variants) <==> Tests(arms)[0].Default?;
      if MatchEmitsDefault(ps, s, variants) {
        var p :| p in ps && ArmEmitsDefault(p, s, variants);
        assert p == ps[0] || p in ps[1..];
      }
    }
  }

  // ---------------------------------------------------------------- the arm that is chosen

  /** The first clause that would run if clauses were tried in order, defaults included. */
  function FirstClause(ts: seq<Test>, vs: seq<Value>): (r: Option<nat>)
    ensures r.Some? ==> r.value < |ts|
  {
    if ts == [] then None
    else if ts[0].Default? || TestHolds(ts[0], vs) then Some(0)
    else match FirstClause(ts[1..], vs) case Some(i) => Some(i + 1) case None => None
  }

  lemma {:induction false} FirstMatchIsFirstClause(ps: seq<Pattern>, vs: seq<Value>, s: SubjectShape, variants: Variants)
    requires |vs| == Width(s) && (forall p :: p in ps ==> PlainAlternatives(p))
    requires LowerArms(ps, s, variants).Some?
    ensures |LowerArms(ps, s, variants).value| == |ps|
    ensures var arms := LowerArms(ps, s, variants).value;
            FirstMatch(ps, vs, s, variants) ==
            match FirstClause(Tests(arms), vs)
            case Some(i) => Some((i, Bound(arms[i].1, vs)))
            case None => None
  {
    if ps != [] {
      var arms := LowerArms(ps, s, variants).value;
      assert arms[1..] == LowerArms(ps[1..], s, variants).value;
      assert Tests(arms)[1..] == Tests(arms[1..]);
      ArmAgrees(ps[0], vs, s, variants);
      FirstMatchIsFirstClause(ps[1..], vs, s, variants);
    }
  }

  /** The cases written after the first default can never be the first to match: each of
      their conjunctions contains a whole conjunction of a case before the default. */
  ghost predicate NothingLiveAfterDefault(ts: seq<Test>) {
    var d := FirstDefault(ts);
    d.Some? ==> forall i, cs :: d.value < i < |ts| && ts[i].Case? && cs in ts[i].alts ==> Covered(ts[..d.value], cs)
  }

  ghost predicate Covered(ts: seq<Test>, cs: Conj) {
    exists k, cs' :: 0 <= k < |ts| && ts[k].Case? && cs' in ts[k].alts && (forall c :: c in cs' ==> c in cs)
  }

  predicate DefaultLast(ts: seq<Test>) {
    forall i :: 0 <= i < |ts| - 1 ==> ts[i].Case?
  }

  lemma FirstCaseIs(ts: seq<Test>, vs: seq<Value>)
    ensures var r := FirstCase(ts, vs);
            match r
            case Some(i) => TestHolds(ts[i], vs) && forall k :: 0 <= k < i ==> !TestHolds(ts[k], vs)
            case None => forall k :: 0 <= k < |ts| ==> !TestHolds(ts[k], vs)
  {
    if ts != [] && !TestHolds(ts[0], vs) {
      FirstCaseIs(ts[1..], vs);
    }
  }

  lemma FirstDefaultIs(ts: seq<Test>)
    ensures var r := FirstDefault(ts);
            match r
            case Some(i) => ts[i].Default? && forall k :: 0 <= k < i ==> ts[k].Case?
            case None => forall k :: 0 <= k < |ts| ==> ts[k].Case?
  {
    if ts != [] && ts[0].Case? {
      FirstDefaultIs(ts[1..]);
    }
  }

  lemma FirstClauseIs(ts: seq<Test>, vs: seq<Value>)
    ensures var r := FirstClause(ts, vs);
            match r
            case Some(i) => (ts[i].Default? || TestHolds(ts[i], vs)) &&
                            forall k :: 0 <= k < i ==> ts[k].Case? && !TestHolds(ts[k], vs)
            case None => forall k :: 0 <= k < |ts| ==> ts[k].Case? && !TestHolds(ts[k], vs)
  {
    if ts != [] && ts[0].Case? && !TestHolds(ts[0], vs) {
      FirstClauseIs(ts[1..], vs);
    }
  }

  lemma CoveredHolds(ts: seq<Test>, cs: Conj, vs: seq<Value>)
    requires Covered(ts, cs) && ConjHolds(cs, vs)
    ensures exists k :: 0 <= k < |ts| && TestHolds(ts[k], vs)
  {
    var k, cs' :| 0 <= k < |ts| && ts[k].Case? && cs' in ts[k].alts && (forall c :: c in cs' ==> c in cs);
    assert ConjHolds(cs', vs);
    assert TestHolds(ts[k], vs);
  }

  lemma GoPickInOrder(ts: seq<Test>, vs: seq<Value>)
    requires NothingLiveAfterDefault(ts)
    ensures GoPick(ts, vs) == FirstClause(ts, vs)
  {
    FirstCaseIs(ts, vs);
    FirstDefaultIs(ts);
    FirstClauseIs(ts, vs);
    var d, c := FirstDefault(ts), FirstCase(ts, vs);
    if d.Some? && c.Some? && c.value > d.value {
      var cs :| cs in ts[c.value].alts && ConjHolds(cs, vs);
      CoveredHolds(ts[..d.value], cs, vs);
    }
  }

  // ---------------------------------------------------------------- and only then

  /** At most one condition for each component, and none beyond the width. */
  predicate Functional(cs: Conj, width: nat) {
    && (forall c :: c in cs ==> c.comp < width)
    && (forall c, c' :: c in cs && c' in cs && c.comp == c'.comp ==> c == c')
  }

  function Witness(c: Check): Value {
    match c
    case TagIs(tag) => Sum(tag, [])
    case ValueIs(n) => Prim(n)
  }

  /** A component that satisfies the conditions of cs on it and no other check. */
  function Exactly(cs: Conj, j: nat): Value {
    if cs == [] then UNIT
    else if cs[0].comp == j then Witness(cs[0].check)
    else Exactly(cs[1..], j)
  }

  lemma {:induction false} ExactlyIs(cs: Conj, j: nat, check: Check, width: nat)
    requires Functional(cs, width)
    ensures CheckHolds(check, Exactly(cs, j)) <==> Cond(j, check) in cs
  {
    if cs != [] {
      if cs[0].comp == j {
        if Cond(j, check) in cs { assert cs[0] == Cond(j, check); }
      } else {
        assert Functional(cs[1..], width);
        ExactlyIs(cs[1..], j, check, width);
        assert Cond(j, check) in cs <==> Cond(j, check) in cs[1..];
      }
    }
  }

  /** Values that satisfy the conditions in cs and no others. */
  function Point(cs: Conj, width: nat): seq<Value> { seq(width, j requires 0 <= j => Exactly(cs, j)) }

  lemma PointIs(cs: Conj, width: nat, cs': Conj)
    requires Functional(cs, width)
    ensures ConjHolds(cs', Point(cs, width)) <==> forall c :: c in cs' ==> c in cs
  {
    forall c ensures CondHolds(c, Point(cs, width)) <==> c in cs {
      if c.comp < width { ExactlyIs(cs, c.comp, c.check, width); assert c == Cond(c.comp, c.check); }
    }
  }

  ghost predicate AllFunctional(ts: seq<Test>, width: nat) {
    forall i, cs :: 0 <= i < |ts| && ts[i].Case? && cs in ts[i].alts ==> Functional(cs, width)
  }

  lemma LiveAfterDefaultDiffers(ts: seq<Test>, width: nat)
    requires AllFunctional(ts, width) && !NothingLiveAfterDefault(ts)
    ensures exists vs :: |vs| == width && GoPick(ts, vs) != FirstClause(ts, vs)
  {
    FirstDefaultIs(ts);
    var d := FirstDefault(ts).value;
    var i, cs :| d < i < |ts| && ts[i].Case? && cs in ts[i].alts && !Covered(ts[..d], cs);
    var vs := Point(cs, width);
    PointIs(cs, width, cs);
    forall k | 0 <= k < d ensures !TestHolds(ts[k], vs) {
      assert ts[..d][k] == ts[k];
      if ts[k].Case? {
        forall cs' | cs' in ts[k].alts ensures !ConjHolds(cs', vs) { PointIs(cs, width, cs'); }
      }
    }
    FirstCaseIs(ts, vs);
    FirstClauseIs(ts, vs);
    assert |vs| == width && GoPick(ts, vs) != FirstClause(ts, vs);
  }

  // ---------------------------------------------------------------- lowered tests are functional

  lemma {:induction false} TupleCondsFunctional(ps: seq<Pattern>, j: nat, compTypes: seq<string>, variants: Variants)
    requires j + |ps| == |compTypes| && TupleConds(ps, j, compTypes, variants).Some?
    ensures Functional(TupleConds(ps, j, compTypes, variants).value, |compTypes|)
    ensures forall c :: c in TupleConds(ps, j, compTypes, variants).value ==> j <= c.comp
    decreases |ps|
  {
    if ps != [] { TupleCondsFunctional(ps[1..], j + 1, compTypes, variants); }
  }

  lemma {:induction false} CaseValuesFunctional(atoms: seq<Pattern>, variants: Variants)
    requires CaseValues(atoms, variants).Some?
    ensures forall cs :: cs in CaseValues(atoms, variants).value ==> Functional(cs, 1)
  {
    if atoms != [] { CaseValuesFunctional(atoms[1..], variants); }
  }

  lemma {:induction false} LoweredFunctional(ps: seq<Pattern>, s: SubjectShape, variants: Variants)
    requires LowerArms(ps, s, variants).Some?
    ensures AllFunctional(Tests(LowerArms(ps, s, variants).value), Width(s))
  {
    if ps != [] {
      var arms := LowerArms(ps, s, variants).value;
      LoweredFunctional(ps[1..], s, variants);
      assert arms[1..] == LowerArms(ps[1..], s, variants).value;
      assert forall i :: 1 <= i < |arms| ==> Tests(arms)[i] == Tests(arms[1..])[i - 1];
      match s
      case Single => if ps[0].AltPat? { CaseValuesFunctional(ps[0].atoms, variants); }
      case Tuple(compTypes) => if ps[0].ProductPat? { TupleCondsFunctional(ps[0].sub, 0, compTypes, variants); }
    }
  }

  // ---------------------------------------------------------------- main results

  /** The clause Go runs, with the bindings its lines make. */
  function GoChoice(arms: seq<(Test, seq<Bind>)>, vs: seq<Value>): Option<(nat, Bindings)> {
    match GoPick(Tests(arms), vs)
    case Some(i) => Some((i, Bound(arms[i].1, vs)))
    case None => None
  }

  /** For every subject value the lowered switch runs the arm of the first-match rule with
      the same bindings if and only if no case after a default clause is live. */
  lemma SwitchIsFirstMatchExactly(ps: seq<Pattern>, s: SubjectShape, variants: Variants)
    requires LowerPatterns(ps, s, variants).Some? && forall p :: p in ps ==> PlainAlternatives(p)
    ensures var arms := LowerPatterns(ps, s, variants).value;
            NothingLiveAfterDefault(Tests(arms)) <==>
            forall vs :: |vs| == Width(s) ==> GoChoice(arms, vs) == FirstMatch(ps, vs, s, variants)
  {
    var arms := LowerPatterns(ps, s, variants).value;
    forall vs | |vs| == Width(s)
      ensures GoPick(Tests(arms), vs) == FirstClause(Tests(arms), vs) <==> GoChoice(arms, vs) == FirstMatch(ps, vs, s, variants)
    {
      FirstMatchIsFirstClause(ps, vs, s, variants);
    }
    if NothingLiveAfterDefault(Tests(arms)) {
      forall vs | |vs| == Width(s) ensures GoChoice(arms, vs) == FirstMatch(ps, vs, s, variants) {
        GoPickInOrder(Tests(arms), vs);
      }
    } else {
      LoweredFunctional(ps, s, variants);
      LiveAfterDefaultDiffers(Tests(arms), Width(s));
    }
  }

  /** In particular when the only catch-all is the last arm. */
  lemma DefaultLastIsEnough(ts: seq<Test>)
    requires DefaultLast(ts)
    ensures NothingLiveAfterDefault(ts)
  {
    FirstDefaultIs(ts);
  }

  /** Sema rejects an arm after `_`, but not after a tuple pattern of fresh names:
      `match (a, b) { (x, y) => …, (1, 2) => … }` runs its second arm on (1, 2). */
  lemma TupleCatchAllInTheMiddle() returns (ps: seq<Pattern>, vs: seq<Value>)
    ensures var s := Tuple(["", ""]);
            && |vs| == 2 && LowerPatterns(ps, s, map[]).Some?
            && FirstMatch(ps, vs, s, map[]).Some? && FirstMatch(ps, vs, s, map[]).value.0 == 0
            && GoPick(Tests(LowerPatterns(ps, s, map[]).value), vs) == Some(1)
  {
    var names := ["", ""];
    var s := Tuple(names);
    var p, q := ProductPat([IdentPat("x"), IdentPat("y")]), ProductPat([LitPat(1), LitPat(2)]);
    ps, vs := [p, q], [Prim(1), Prim(2)];
    assert TupleConds(p.sub, 0, names, map[]) == Some([]) by {
      assert TupleConds(p.sub[1..], 1, names, map[]) == Some([]) by { assert p.sub[1..][1..] == []; }
    }
    assert TupleBinds(p.sub, 0, names, map[]).Some? by {
      assert TupleBinds(p.sub[1..], 1, names, map[]).Some? by { assert p.sub[1..][1..] == []; }
    }
    var both := [Cond(0, ValueIs(1))] + ([Cond(1, ValueIs(2))] + []);
    assert TupleConds(q.sub, 0, names, map[]) == Some(both) by {
      assert q.sub[1..][1..] == [];
      assert TupleConds(q.sub[1..], 1, names, map[]) == Some([Cond(1, ValueIs(2))] + []);
    }
    assert TupleBinds(q.sub, 0, names, map[]).Some? by {
      assert TupleBinds(q.sub[1..], 1, names, map[]).Some? by { assert q.sub[1..][1..] == []; }
    }
    var arms := [LowerArm(p, s, map[]).value] + ([LowerArm(q, s, map[]).value] + []);
    assert ps[1..] == [q] && [q][1..] == [];
    assert LowerArms([q], s, map[]) == Some([LowerArm(q, s, map[]).value] + []);
    assert LowerPatterns(ps, s, map[]) == Some(arms);
    FirstMatchIsFirstClause(ps, vs, s, map[]);
    var ts := Tests(arms);
    assert ts[0] == Default && ts[1] == Case([both]);
    assert both in ts[1].alts && ConjHolds(both, vs);
    assert TestHolds(ts[1], vs);
    FirstCaseIs(ts, vs);
    FirstClauseIs(ts, vs);
  }
}
