/**
 What a version leaves behind once its source is resolved higher (cmd/aril/getresolve.go):
 its requirements stay on record, and the Go module it bound stays at its pin.
 */
module Superseded {
  import opened Wrappers
  import opened Strings
  import opened Versions
  import opened Constraints
  import opened Upgrade
  import opened Selection
  import opened Resolver

  // ---------------------------------------------------------------- requirements left behind

  /** Every version that occurs has one spelling. */
  ghost predicate Untied(rs: seq<Requirement>, tags: seq<Semver>) {
    && (forall t :: t in tags ==> Canonical(t))
    && (forall r, cm :: r in rs && cm in r.c.comps ==> Canonical(cm.v))
  }

  lemma SameVersion(v: Semver, w: Semver)
    requires Canonical(v) && Canonical(w) && Compare(v, w) == 0
    ensures v == w
  {
    TotalOrder(v, w, w);
  }

  lemma {:induction false} MaxFloorAbove(rs: seq<Requirement>, r: Requirement)
    requires r in rs && FloorOf(r.c.comps).Some?
    ensures MaxFloorOf(rs).Some? && Compare(MaxFloorOf(rs).value, FloorOf(r.c.comps).value) >= 0
    decreases |rs|
  {
    var rest, last, lo := rs[..|rs| - 1], rs[|rs| - 1], FloorOf(r.c.comps).value;
    assert rs == rest + [last];
    CompareSymmetric(lo, lo);
    if r in rest {
      MaxFloorAbove(rest, r);
      var was, now := MaxFloorOf(rest).value, MaxFloorOf(rs).value;
      CompareSymmetric(was, now);
      CompareSymmetric(now, lo);
      CompareSymmetric(was, lo);
      if Compare(now, lo) < 0 && now != was { StrictlyTransitive(was, now, lo); }
    } else if MaxFloorOf(rest).Some? {
      CompareSymmetric(MaxFloorOf(rest).value, lo);
    }
  }

  /** The bound that is the greatest floor. */
  lemma {:induction false} MaxFloorOfSome(rs: seq<Requirement>) returns (r: Requirement)
    requires MaxFloorOf(rs).Some?
    ensures r in rs && FloorOf(r.c.comps) == MaxFloorOf(rs)
    decreases |rs|
  {
    var rest, last := rs[..|rs| - 1], rs[|rs| - 1];
    assert rs == rest + [last];
    if MaxFloorOf(rs) == MaxFloorOf(rest) { r := MaxFloorOfSome(rest); } else { r := last; }
  }

  ghost predicate Among(live: seq<Requirement>, rs: seq<Requirement>) { forall r :: r in live ==> r in rs }

  ghost predicate MeetsAll(p: Pick, rs: seq<Requirement>) { forall r :: r in rs ==> Meets(p, r.c) }

  /** A version that ties with a pin it meets. */
  lemma PinMeans(rs: seq<Requirement>, v: Semver, pin: Semver)
    requires pin in Pins(rs) && AdmittedByAll(rs, v)
    ensures Compare(v, pin) == 0 && exists r :: r in rs && IsPin(r.c) && r.c.comps[0].v == pin
  {
    KindsOf(rs);
    TiesWithPin(rs, pin, v);
  }

  lemma CandidatesKept(live: seq<Requirement>, rs: seq<Requirement>, tags: seq<Semver>, v: Semver)
    requires Among(live, rs) && v in Candidates(live, tags)
    ensures v in Candidates(rs, tags)
  {
    KindsOf(live);
    KindsOf(rs);
    if v in Pins(live) {
      var r :| r in live && IsPin(r.c) && r.c.comps[0].v == v;
      assert r in rs;
    } else {
      var r :| r in live && IsRange(r.c);
      assert r in rs && HasRange(rs);
    }
  }

  lemma LiveCandidateStays(live: seq<Requirement>, rs: seq<Requirement>, tags: seq<Semver>)
    requires Among(live, rs) && Untied(rs, tags) && Candidates(live, tags) != [] && Mvs(live, Candidates(live, tags)).Ok?
    requires AdmittedByAll(rs, Mvs(live, Candidates(live, tags)).value)
    ensures Mvs(rs, Candidates(rs, tags)) == Mvs(live, Candidates(live, tags))
  {
    var v := Mvs(live, Candidates(live, tags)).value;
    SelectsLeast(live, Candidates(live, tags));
    CandidatesKept(live, rs, tags, v);
    SelectsLeast(rs, Candidates(rs, tags));
    var v' := Mvs(rs, Candidates(rs, tags)).value;
    CompareSymmetric(v, v');
    assert AdmittedByAll(live, v') && AdmittedByAll(live, v);
    if v' in Pins(rs) {
      PinMeans(rs, v, v');
    } else if v' !in Candidates(live, tags) {
      PinMeans(live, v', v);
    }
    CandidatesAreUntied(rs, tags, v);
    CandidatesAreUntied(rs, tags, v');
    SameVersion(v, v');
  }

  lemma CandidatesAreUntied(rs: seq<Requirement>, tags: seq<Semver>, v: Semver)
    requires Untied(rs, tags) && v in Candidates(rs, tags)
    ensures Canonical(v)
  {
    KindsOf(rs);
    if v in Pins(rs) {
      var r :| r in rs && IsPin(r.c) && r.c.comps[0].v == v;
      assert r.c.comps[0] in r.c.comps;
    }
  }

  lemma LiveFloorStays(live: seq<Requirement>, rs: seq<Requirement>)
    requires Among(live, rs) && Untied(rs, []) && Mvs(live, []).Ok? && AdmittedByAll(rs, Mvs(live, []).value)
    ensures Mvs(rs, Pins(rs)) == Mvs(live, [])
  {
    var v := Mvs(live, []).value;
    var r := MaxFloorOfSome(live);
    FloorIsGreatest(r.c.comps);
    assert r in rs && Canonical(v);
    if Pins(rs) != [] {
      var pin := Pins(rs)[0];
      PinMeans(rs, v, pin);
      assert pin in Candidates(rs, []);
      CandidatesAreUntied(rs, [], pin);
      SameVersion(v, pin);
      SelectsLeast(rs, Pins(rs));
      var v' := Mvs(rs, Pins(rs)).value;
      PinMeans(rs, v, v');
      assert v' in Candidates(rs, []);
      CandidatesAreUntied(rs, [], v');
      SameVersion(v, v');
    } else {
      MaxFloorAbove(rs, r);
      AdmittedIsAboveFloor(rs, v);
      var q := MaxFloorOfSome(rs);
      FloorIsGreatest(q.c.comps);
      CompareSymmetric(v, MaxFloorOf(rs).value);
      SameVersion(v, MaxFloorOf(rs).value);
    }
  }

  lemma ShasStay(live: seq<Requirement>, rs: seq<Requirement>, tags: seq<Semver>)
    requires live != [] && Among(live, rs) && Select(live, tags).Ok? && Select(live, tags).value.Sha?
    requires MeetsAll(Select(live, tags).value, rs)
    ensures Select(rs, tags) == Select(live, tags)
  {
    KindsOf(live);
    KindsOf(rs);
    ShasAre(rs, Select(live, tags).value.commit);
    assert live[0] in live && live[0] in rs;
    assert Shas(live)[0] in Shas(live) && Shas(rs)[0] in Shas(rs);
  }

  lemma {:induction false} ShasAre(rs: seq<Requirement>, commit: string)
    requires commit != "" && forall r :: r in rs ==> r.c.commit == commit
    ensures (forall s :: s in Shas(rs) ==> s == commit) && !HasRange(rs) && Pins(rs) == []
    ensures rs != [] ==> Shas(rs) != []
    decreases |rs|
  {
    if rs != [] {
      assert rs == rs[..|rs| - 1] + [rs[|rs| - 1]];
      ShasAre(rs[..|rs| - 1], commit);
    }
  }

  /** Requirements besides the live ones leave the selection as the live ones give it if and
      only if each of them is met by it. */
  lemma LeftoversMatterExactly(live: seq<Requirement>, rs: seq<Requirement>, tags: seq<Semver>)
    requires live != [] && Among(live, rs) && Untied(rs, tags) && Select(live, tags).Ok?
    ensures Select(rs, tags) == Select(live, tags) <==> MeetsAll(Select(live, tags).value, rs)
  {
    var p := Select(live, tags).value;
    assert live[0] in rs;
    if Select(rs, tags) == Ok(p) { SelectionMeetsAll(rs, tags); }
    if MeetsAll(p, rs) {
      if p.Sha? {
        ShasStay(live, rs, tags);
      } else {
        NoShas(rs, p.v);
        RangeOrCandidates(live, tags);
        if Candidates(live, tags) != [] {
          LiveCandidateStays(live, rs, tags);
        } else {
          assert tags == [] && Candidates(rs, tags) == Pins(rs);
          LiveFloorStays(live, rs);
        }
      }
    }
  }

  lemma {:induction false} NoShas(rs: seq<Requirement>, v: Semver)
    requires AdmittedByAll(rs, v)
    ensures Shas(rs) == []
    decreases |rs|
  {
    if rs != [] {
      assert rs == rs[..|rs| - 1] + [rs[|rs| - 1]];
      NoShas(rs[..|rs| - 1], v);
      assert Admits(rs[|rs| - 1].c, v);
    }
  }

  /** The root, or the manifest of a version that is still selected. */
  ghost predicate LiveManifest(m: Manifest, st: State, root: Manifest, reg: Registry) {
    m == root || exists s :: s in st.sel && (s, st.sel[s]) in reg.manifests && reg.manifests[(s, st.sel[s])] == m
  }

  ghost predicate AskedLive(s: string, r: Requirement, st: State, root: Manifest, reg: Registry) {
    exists m, d :: LiveManifest(m, st, root, reg) && d in m.deps && d.source == s && d.replace == ""
                   && r.requirer == m.name && ParseConstraint(d.version) == Some(r.c)
  }

  /** What is asked live is on record. */
  lemma LiveIsRecorded(s: string, r: Requirement, st: State, root: Manifest, reg: Registry)
    requires Resolved(st, root, reg) && AskedLive(s, r, st, root, reg)
    ensures r in ReqsOf(st, s)
  {
    hide ParseConstraint, Select;
    var m, d :| LiveManifest(m, st, root, reg) && d in m.deps && d.source == s && d.replace == ""
                && r.requirer == m.name && ParseConstraint(d.version) == Some(r.c);
    var j :| 0 <= j < |m.deps| && m.deps[j] == d;
    assert RecordedUpTo(st, m, |m.deps|) && Recorded(st, m.name, m.deps[j]);
    assert r == Requirement(m.name, ParseConstraint(d.version).value);
  }

  /** At the fixpoint, a selection is the one that the root and the versions still selected ask
      for, if and only if it also meets what superseded versions asked for. */
  lemma SelectionIsLiveExactly(st: State, root: Manifest, reg: Registry, s: string, live: seq<Requirement>)
    requires Resolved(st, root, reg) && s in st.sel && Untied(ReqsOf(st, s), TagsOf(reg, s))
    requires live != [] && (forall r :: r in live ==> AskedLive(s, r, st, root, reg)) && Select(live, TagsOf(reg, s)).Ok?
    ensures st.sel[s] == Select(live, TagsOf(reg, s)).value <==> MeetsAll(Select(live, TagsOf(reg, s)).value, ReqsOf(st, s))
  {
    assert SelectedAt(st, reg, s);
    forall r | r in live ensures r in st.reqs[s] { LiveIsRecorded(s, r, st, root, reg); }
    LeftoversMatterExactly(live, st.reqs[s], TagsOf(reg, s));
  }

  // ---------------------------------------------------------------- a source that rises

  const V100: Semver := Semver(1, 0, 0, "")
  const V110: Semver := Semver(1, 1, 0, "")

  function CaretOf(v: Semver): string { "^" + Core(v) }

  lemma ReadsCaret(v: Semver)
    requires IsTag(v)
    ensures ParseConstraint(CaretOf(v)) == Some(Window(CaretOf(v), Caret, v))
  {
    var c := Constraint("^", [], "");
    assert c.text[..1] == "^" && Raised(c, v) == CaretOf(v);
    RaisedReadsBack(c, v);
  }

  /** `^v`, asked for by `requirer`. */
  function Asks(requirer: string, v: Semver): Requirement { Requirement(requirer, Window(CaretOf(v), Caret, v)) }

  ghost predicate AllCaret(rs: seq<Requirement>) {
    rs != [] && forall r :: r in rs ==> exists v :: r.c == Window(CaretOf(v), Caret, v)
  }

  lemma {:induction false} CaretsAreRanges(rs: seq<Requirement>)
    requires AllCaret(rs)
    ensures Shas(rs) == [] && Pins(rs) == [] && HasRange(rs)
    decreases |rs|
  {
    hide CaretOf, Core;
    var rest, last := rs[..|rs| - 1], rs[|rs| - 1];
    assert rs == rest + [last] && last in rs;
    var v :| last.c == Window(CaretOf(v), Caret, v);
    assert IsRange(last.c);
    OneMore(rest, last);
    if rest != [] { CaretsAreRanges(rest); }
  }

  /** Two tags in order, under ranges. */
  lemma PicksFrom(rs: seq<Requirement>, t: Semver, u: Semver)
    requires AllCaret(rs) && Compare(t, u) < 0
    ensures Select(rs, [t, u]) ==
            if AdmittedByAll(rs, t) then Ok(Tag(t))
            else if AdmittedByAll(rs, u) then Ok(Tag(u))
            else Err(VersionConflict(MvsError.Conflict))
  {
    hide AllCaret, AdmittedByAll, Compare, Shas, Pins, HasRange;
    CaretsAreRanges(rs);
    LowestOfTwo(rs, t, u);
    assert Candidates(rs, [t, u]) == [t, u];
  }

  lemma LowestOfTwo(rs: seq<Requirement>, t: Semver, u: Semver)
    requires Compare(t, u) < 0
    ensures Lowest([t, u], rs) ==
            if AdmittedByAll(rs, t) then Some(t) else if AdmittedByAll(rs, u) then Some(u) else None
  {
    hide AdmittedByAll;
    CompareSymmetric(t, u);
    assert [t, u][1..] == [u] && [u][1..] == [];
    var best := if AdmittedByAll(rs, t) then Some(t) else None;
    assert Lowest([t, u], rs) == LowestFrom(best, [u], rs);
  }

  const V200: Semver := Semver(2, 0, 0, "")

  lemma CaretAdmits(requirer: string, lo: Semver, v: Semver)
    ensures Admits(Asks(requirer, lo).c, v) <==> Compare(v, lo) >= 0 && Compare(v, Ceiling(Caret, lo)) < 0
  {
    WindowAdmits(CaretOf(lo), Caret, lo, v);
  }

  lemma OneAsks(a: Requirement, v: Semver)
    ensures AdmittedByAll([a], v) <==> Admits(a.c, v)
  {
    assert a in [a];
  }

  lemma TwoAsk(a: Requirement, b: Requirement, v: Semver)
    ensures AdmittedByAll([a] + [b], v) <==> Admits(a.c, v) && Admits(b.c, v)
  {
    assert a in [a] + [b] && b in [a] + [b];
  }

  lemma AsksAreCaret(a: string, v: Semver, b: string, w: Semver)
    ensures AllCaret([Asks(a, v)]) && AllCaret([Asks(a, v)] + [Asks(b, w)])
  {
    assert Asks(a, v).c == Window(CaretOf(v), Caret, v) && Asks(b, w).c == Window(CaretOf(w), Caret, w);
  }

  /** One and two `^` requirements over the tags t < u. */
  lemma PicksOne(a: string, v: Semver, t: Semver, u: Semver)
    requires Compare(t, u) < 0
    ensures Select([Asks(a, v)], [t, u]) ==
            if Admits(Asks(a, v).c, t) then Ok(Tag(t))
            else if Admits(Asks(a, v).c, u) then Ok(Tag(u))
            else Err(VersionConflict(MvsError.Conflict))
  {
    AsksAreCaret(a, v, a, v);
    PicksFrom([Asks(a, v)], t, u);
    OneAsks(Asks(a, v), t);
    OneAsks(Asks(a, v), u);
  }

  lemma PicksTwo(a: string, v: Semver, b: string, w: Semver, t: Semver, u: Semver)
    requires Compare(t, u) < 0
    ensures Select([Asks(a, v)] + [Asks(b, w)], [t, u]) ==
            if Admits(Asks(a, v).c, t) && Admits(Asks(b, w).c, t) then Ok(Tag(t))
            else if Admits(Asks(a, v).c, u) && Admits(Asks(b, w).c, u) then Ok(Tag(u))
            else Err(VersionConflict(MvsError.Conflict))
  {
    AsksAreCaret(a, v, b, w);
    PicksFrom([Asks(a, v)] + [Asks(b, w)], t, u);
    TwoAsk(Asks(a, v), Asks(b, w), t);
    TwoAsk(Asks(a, v), Asks(b, w), u);
  }

  function Plain(name: string, v: Semver): Dep { Dep(name, name, "", CaretOf(v), "") }

  /** Package a at 1.0.0 and at 1.1.0 binds the module m, to different pins, and needs x;
      b needs the newer a. */
  function OldA(): Manifest { Manifest("a", [Plain("x", V100)], "binding", "m", "g1") }
  function NewA(x: Semver): Manifest { Manifest("a", [Plain("x", x)], "binding", "m", "g2") }
  function B(): Manifest { Manifest("b", [Plain("a", V110)], "", "", "") }
  function Root(): Manifest { Manifest("r", [Plain("a", V100), Plain("b", V100)], "", "", "") }

  function Reg(x: Semver): Registry {
    Registry(map["a" := [V100, V110], "b" := [V100, V110], "x" := [V100, V200]],
             map[("a", Tag(V100)) := OldA(), ("a", Tag(V110)) := NewA(x), ("b", Tag(V100)) := B()])
  }

  /** The state behind a dependency that selects another version. */
  function Picked(st: State, requirer: string, name: string, v: Semver, pick: Pick, reg: Registry): State {
    var st' := st.(reqs := st.reqs[name := ReqsOf(st, name) + [Asks(requirer, v)]],
                   name := st.name[name := name],
                   sel := st.sel[name := pick],
                   fetched := st.fetched + [(name, pick)],
                   expandedAt := st.expandedAt[name := pick]);
    if (name, pick) !in reg.manifests then st'
    else st'.(bound := Bind(st.bound, reg.manifests[(name, pick)]), queue := st.queue + [reg.manifests[(name, pick)]])
  }

  lemma Selects(st: State, requirer: string, name: string, v: Semver, pick: Pick, reg: Registry)
    requires IsTag(v) && name != "" && (name in st.name ==> st.name[name] == name)
    requires Select(ReqsOf(st, name) + [Asks(requirer, v)], TagsOf(reg, name)) == Ok(pick)
    requires name in st.sel ==> st.sel[name] != pick
    requires name in st.expandedAt ==> st.expandedAt[name] != pick
    ensures Require(st, requirer, Plain(name, v), reg) == Ok(Picked(st, requirer, name, v, pick, reg))
  {
    hide ParseConstraint, Select, Bind;
    ReadsCaret(v);
    if name in st.name { assert st.name[name := name] == st.name; }
  }

  // the run, manifest by manifest

  function Opened(x: Semver): State { Picked(Start(Root()).(queue := []), "r", "a", V100, Tag(V100), Reg(x)) }
  function AfterRoot(x: Semver): State { Picked(Opened(x), "r", "b", V100, Tag(V100), Reg(x)) }
  function AfterOldA(x: Semver): State { Picked(AfterRoot(x).(queue := [B()]), "a", "x", V100, Tag(V100), Reg(x)) }
  function AfterB(x: Semver): State { Picked(AfterOldA(x).(queue := []), "b", "a", V110, Tag(V110), Reg(x)) }

  lemma OneDependency(st: State, m: Manifest, reg: Registry)
    requires |m.deps| == 1
    ensures Dependencies(st, m, 0, reg) == Require(st, m.name, m.deps[0], reg)
  {
    hide Require;
    var r := Require(st, m.name, m.deps[0], reg);
    if r.Ok? { assert Dependencies(r.value, m, 1, reg) == Ok(r.value); }
  }

  lemma RunsRoot(x: Semver)
    ensures Rounds(Start(Root()), 1, Reg(x)) == Ok(AfterRoot(x)) && AfterRoot(x).queue == [OldA(), B()]
    ensures var st := AfterRoot(x);
            && ReqsOf(st, "a") == [Asks("r", V100)] && "x" !in st.reqs && "x" !in st.sel && "x" !in st.expandedAt
            && "x" !in st.name && st.name["a"] == "a" && st.sel["a"] == st.expandedAt["a"] == Tag(V100)
            && "m" in st.bound && st.bound["m"] == "g1"
  {
    hide Require;
    var reg, st := Reg(x), Start(Root()).(queue := []);
    assert [Asks("r", V100)] == [] + [Asks("r", V100)];
    PicksOne("r", V100, V100, V110);
    CaretAdmits("r", V100, V100);
    Selects(st, "r", "a", V100, Tag(V100), reg);
    Selects(Opened(x), "r", "b", V100, Tag(V100), reg);
    assert [Root()][1..] == [];
    assert Rounds(Start(Root()), 0, reg) == Ok(Start(Root()));
    assert Dependencies(AfterRoot(x), Root(), 2, reg) == Ok(AfterRoot(x));
    assert Dependencies(Opened(x), Root(), 1, reg) == Ok(AfterRoot(x));
    assert Dependencies(st, Root(), 0, reg) == Ok(AfterRoot(x));
  }

  lemma RunsOldA(x: Semver)
    ensures Rounds(Start(Root()), 2, Reg(x)) == Ok(AfterOldA(x)) && AfterOldA(x).queue == [B()]
    ensures var st := AfterOldA(x);
            && ReqsOf(st, "a") == [Asks("r", V100)] && ReqsOf(st, "x") == [Asks("a", V100)]
            && st.name["a"] == "a" && st.name["x"] == "x" && st.sel["a"] == st.expandedAt["a"] == Tag(V100)
            && "x" in st.sel && st.sel["x"] == Tag(V100) && "m" in st.bound && st.bound["m"] == "g1"
  {
    hide Require;
    RunsRoot(x);
    var reg, st := Reg(x), AfterRoot(x).(queue := [B()]);
    assert [OldA(), B()][1..] == [B()];
    assert [] + [Asks("a", V100)] == [Asks("a", V100)];
    PicksOne("a", V100, V100, V200);
    CaretAdmits("a", V100, V100);
    Selects(st, "a", "x", V100, Tag(V100), reg);
    OneDependency(st, OldA(), reg);
    assert Round(AfterRoot(x), reg) == Dependencies(st, OldA(), 0, reg);
    assert Rounds(Start(Root()), 2, reg) == Round(AfterRoot(x), reg);
  }

  lemma RunsB(x: Semver)
    ensures Rounds(Start(Root()), 3, Reg(x)) == Ok(AfterB(x)) && AfterB(x).queue == [NewA(x)]
    ensures var st := AfterB(x);
            && ReqsOf(st, "x") == [Asks("a", V100)] && st.name["x"] == "x" && "x" in st.sel && st.sel["x"] == Tag(V100)
            && "a" in st.sel && st.sel["a"] == Tag(V110) && "m" in st.bound && st.bound["m"] == "g1"
  {
    hide Require, AfterOldA, AfterRoot;
    RunsOldA(x);
    var reg, st := Reg(x), AfterOldA(x).(queue := []);
    assert [B()][1..] == [];
    PicksTwo("r", V100, "b", V110, V100, V110);
    CaretAdmits("r", V100, V100);
    CaretAdmits("b", V110, V100);
    CaretAdmits("r", V100, V110);
    CaretAdmits("b", V110, V110);
    Selects(st, "b", "a", V110, Tag(V110), reg);
    OneDependency(st, B(), reg);
    assert Round(AfterOldA(x), reg) == Dependencies(st, B(), 0, reg);
    assert Rounds(Start(Root()), 3, reg) == Round(AfterOldA(x), reg);
  }

  /** The selection of x behind the newer a. */
  lemma AsksAgain(x: Semver)
    requires x == V100 || x == V200
    ensures Select([Asks("a", V100)] + [Asks("a", x)], [V100, V200]) ==
            if x == V100 then Ok(Tag(V100)) else Err(VersionConflict(MvsError.Conflict))
  {
    PicksTwo("a", V100, "a", x, V100, V200);
    CaretAdmits("a", V100, V100);
    CaretAdmits("a", V100, V200);
    CaretAdmits("a", x, V100);
    CaretAdmits("a", x, V200);
  }

  lemma RunsNewA(x: Semver)
    requires x == V100 || x == V200
    ensures Rounds(Start(Root()), 4, Reg(x)) == Require(AfterB(x).(queue := []), "a", Plain("x", x), Reg(x))
  {
    hide Require, AfterB;
    RunsB(x);
    var reg, st := Reg(x), AfterB(x).(queue := []);
    assert [NewA(x)][1..] == [];
    OneDependency(st, NewA(x), reg);
    assert Round(AfterB(x), reg) == Dependencies(st, NewA(x), 0, reg);
    assert Rounds(Start(Root()), 4, reg) == Round(AfterB(x), reg);
  }

  /** The Go module stays behind: a is selected at 1.1.0, which binds m to g2, and m is bound to g1. */
  lemma BoundStaysBehind()
    ensures var r := Rounds(Start(Root()), 4, Reg(V100));
            && r.Ok? && r.value.queue == []
            && "a" in r.value.sel && r.value.sel["a"] == Tag(V110)
            && IsBinding(NewA(V100)) && Reg(V100).manifests[("a", Tag(V110))] == NewA(V100)
            && "m" in r.value.bound && r.value.bound["m"] != NewA(V100).bindsGo
  {
    hide ParseConstraint, Select, AfterB, Rounds, Window, CaretOf;
    RunsB(V100);
    RunsNewA(V100);
    AsksAgain(V100);
    ReadsCaret(V100);
  }

  /** A conflict made by a version nobody selects: a at 1.1.0 alone asks for x, at ^2.0.0, and
      ^2.0.0 has a tag; but the ^1.0.0 of a at 1.0.0 is still on record. */
  lemma ConflictIsLeftOver()
    ensures Rounds(Start(Root()), 4, Reg(V200)) == Err(Unselectable("x", VersionConflict(MvsError.Conflict)))
    ensures AfterB(V200).sel["a"] == Tag(V110) && Reg(V200).manifests[("a", Tag(V110))] == NewA(V200)
    ensures Select([Asks("a", V200)], TagsOf(Reg(V200), "x")) == Ok(Tag(V200))
    ensures ReqsOf(AfterB(V200), "x") == [Asks("a", V100)] && !Meets(Tag(V200), Asks("a", V100).c)
  {
    hide ParseConstraint, Select, AfterB, Rounds, Window, CaretOf;
    RunsB(V200);
    RunsNewA(V200);
    AsksAgain(V200);
    ReadsCaret(V200);
    PicksOne("a", V200, V100, V200);
    CaretAdmits("a", V200, V100);
    CaretAdmits("a", V200, V200);
    CaretAdmits("a", V100, V200);
  }
}
