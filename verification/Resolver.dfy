/** The resolution worklist (resolveGraph, cmd/aril/getresolve.go). The registry, tag lists and
    manifests by version, is an arbitrary finite table. */
module Resolver {
  import opened Wrappers
  import opened Strings
  import opened Versions
  import opened Constraints
  import opened Upgrade
  import opened Selection

  datatype Dep = Dep(name: string, source: string, kind: string, version: string, replace: string)
  datatype Manifest = Manifest(name: string, deps: seq<Dep>, packageKind: string, binds: string, bindsGo: string)
  datatype Registry = Registry(tags: map<string, seq<Semver>>, manifests: map<(string, Pick), Manifest>)

  datatype Error = BadVersion(dep: string) | Unselectable(source: string, why: SelectError) | KindMismatch(dep: string)

  function TagsOf(reg: Registry, s: string): seq<Semver> { if s in reg.tags then reg.tags[s] else [] }

  /** The maps of the worklist. `fetched` is what ensureFetched was called for, in order. */
  datatype State = State(
    reqs: map<string, seq<Requirement>>,
    name: map<string, string>,
    sel: map<string, Pick>,
    expandedAt: map<string, Pick>,
    bound: map<string, string>,
    fetched: seq<(string, Pick)>,
    queue: seq<Manifest>)

  function Start(root: Manifest): State { State(map[], map[], map[], map[], map[], [], [root]) }

  function ReqsOf(st: State, s: string): seq<Requirement> { if s in st.reqs then st.reqs[s] else [] }

  /** depKindGuard. */
  predicate KindGuard(consumer: string, package: string) { consumer == "" || package == "" || consumer == package }

  predicate IsBinding(m: Manifest) { m.packageKind == "binding" && m.binds != "" && m.bindsGo != "" }

  /** A binding package brings the Go module it wraps; the first pin of a module stays. */
  function Bind(bound: map<string, string>, m: Manifest): map<string, string> {
    if IsBinding(m) && m.binds !in bound then bound[m.binds := m.bindsGo] else bound
  }

  /** The version `pick` of d.source becomes the selection: fetch it, and expand its manifest. */
  function Expand(st: State, d: Dep, pick: Pick, reg: Registry): Result<State, Error> {
    var st' := st.(sel := st.sel[d.source := pick], fetched := st.fetched + [(d.source, pick)]);
    if d.source in st.expandedAt && st.expandedAt[d.source] == pick then Ok(st') else
    var st'' := st'.(expandedAt := st.expandedAt[d.source := pick]);
    if (d.source, pick) !in reg.manifests then Ok(st'') else
    var m := reg.manifests[(d.source, pick)];
    if !KindGuard(d.kind, m.packageKind) then Err(KindMismatch(d.name))
    else Ok(st''.(bound := Bind(st.bound, m), queue := st.queue + [m]))
  }

  /** One dependency d of the manifest called `requirer`. */
  function Require(st: State, requirer: string, d: Dep, reg: Registry): Result<State, Error> {
    if d.replace != "" then Ok(st) else
    match ParseConstraint(d.version)
    case None => Err(BadVersion(d.name))
    case Some(c) =>
      var rs := ReqsOf(st, d.source) + [Requirement(requirer, c)];
      match Select(rs, TagsOf(reg, d.source))
      case Err(e) => Err(Unselectable(d.source, e))
      case Ok(pick) =>
        var st' := st.(reqs := st.reqs[d.source := rs],
                       name := if d.source in st.name && st.name[d.source] != "" then st.name else st.name[d.source := d.name]);
        if d.source in st.sel && st.sel[d.source] == pick then Ok(st') else Expand(st', d, pick, reg)
  }

  // ---------------------------------------------------------------- what every step keeps

  /** The selection of s is what selectVersion gives for the requirements so far. */
  ghost predicate SelectedAt(st: State, reg: Registry, s: string) {
    && (s in st.sel <==> s in st.reqs)
    && (s in st.sel <==> s in st.expandedAt)
    && (s in st.sel ==>
          && st.reqs[s] != []
          && Select(st.reqs[s], TagsOf(reg, s)) == Ok(st.sel[s])
          && st.expandedAt[s] == st.sel[s]
          && (s, st.sel[s]) in st.fetched)
  }

  ghost predicate Selected(st: State, reg: Registry) { forall s: string :: SelectedAt(st, reg, s) }

  /** The requirement of d is on record. */
  ghost predicate Recorded(st: State, requirer: string, d: Dep) {
    d.replace == "" ==>
      && ParseConstraint(d.version).Some?
      && Requirement(requirer, ParseConstraint(d.version).value) in ReqsOf(st, d.source)
  }

  ghost predicate RecordedUpTo(st: State, m: Manifest, i: nat) {
    i <= |m.deps| && forall j :: 0 <= j < i ==> Recorded(st, m.name, m.deps[j])
  }

  /** A manifest waits in the queue, or its requirements are recorded. */
  ghost predicate Handled(st: State, m: Manifest) { m in st.queue || RecordedUpTo(st, m, |m.deps|) }

  /** Every manifest of a version that was ever selected is handled, except one in progress. */
  ghost predicate Complete(st: State, root: Manifest, reg: Registry, current: Option<Manifest>) {
    && (current == Some(root) || Handled(st, root))
    && forall k :: k in st.fetched && k in reg.manifests ==> current == Some(reg.manifests[k]) || Handled(st, reg.manifests[k])
  }

  /** Nothing is made up: a requirement is a dependency of the root or of a fetched version. */
  ghost predicate FromManifests(st: State, root: Manifest, reg: Registry) {
    && (forall m :: m in st.queue ==> Known(m, st, root, reg))
    && (forall s, r :: s in st.reqs && r in st.reqs[s] ==> Asked(s, r, st, root, reg))
  }

  ghost predicate Known(m: Manifest, st: State, root: Manifest, reg: Registry) {
    m == root || exists k :: k in st.fetched && k in reg.manifests && reg.manifests[k] == m
  }

  ghost predicate Asked(s: string, r: Requirement, st: State, root: Manifest, reg: Registry) {
    exists m, d :: Known(m, st, root, reg) && d in m.deps && d.source == s && d.replace == ""
                   && r.requirer == m.name && ParseConstraint(d.version) == Some(r.c)
  }

  /** A map that differs from m at k only, where it holds v. */
  ghost predicate Set<V>(m: map<string, V>, m': map<string, V>, k: string, v: V) {
    k in m' && m'[k] == v && forall s :: s != k ==> (s in m' <==> s in m) && (s in m ==> m'[s] == m[s])
  }

  ghost predicate Grows(a: seq<(string, Pick)>, b: seq<(string, Pick)>) { forall k :: k in a ==> k in b }

  ghost predicate FetchedOnly(st: State, st': State, k: (string, Pick)) {
    k in st'.fetched && Grows(st.fetched, st'.fetched) && forall l :: l in st'.fetched ==> l in st.fetched || l == k
  }

  /** What one dependency does to the selection of its source. */
  ghost predicate Stepped(st: State, st': State, s: string, rs: seq<Requirement>, pick: Pick) {
    && Set(st.reqs, st'.reqs, s, rs)
    && Set(st.sel, st'.sel, s, pick)
    && Set(st.expandedAt, st'.expandedAt, s, pick)
    && FetchedOnly(st, st', (s, pick))
  }

  function NewReqs(st: State, requirer: string, d: Dep): seq<Requirement>
    requires ParseConstraint(d.version).Some?
  {
    ReqsOf(st, d.source) + [Requirement(requirer, ParseConstraint(d.version).value)]
  }

  lemma RequireSteps(st: State, requirer: string, d: Dep, reg: Registry)
    requires SelectedAt(st, reg, d.source) && d.replace == "" && Require(st, requirer, d, reg).Ok?
    ensures ParseConstraint(d.version).Some? && Select(NewReqs(st, requirer, d), TagsOf(reg, d.source)).Ok?
    ensures Stepped(st, Require(st, requirer, d, reg).value, d.source, NewReqs(st, requirer, d),
                    Select(NewReqs(st, requirer, d), TagsOf(reg, d.source)).value)
  {
    hide ParseConstraint, Select, Bind;
  }

  lemma SteppingKeepsSelected(st: State, st': State, s: string, rs: seq<Requirement>, pick: Pick, reg: Registry)
    requires Selected(st, reg) && Stepped(st, st', s, rs, pick) && rs != [] && Select(rs, TagsOf(reg, s)) == Ok(pick)
    ensures Selected(st', reg)
  {
    hide ParseConstraint, Select;
    forall t ensures SelectedAt(st', reg, t) {
      assert SelectedAt(st, reg, t);
    }
  }

  lemma RequireKeepsSelected(st: State, requirer: string, d: Dep, reg: Registry)
    requires Selected(st, reg) && Require(st, requirer, d, reg).Ok?
    ensures Selected(Require(st, requirer, d, reg).value, reg)
  {
    hide ParseConstraint, Select;
    if d.replace == "" {
      assert SelectedAt(st, reg, d.source);
      RequireSteps(st, requirer, d, reg);
      var rs := NewReqs(st, requirer, d);
      SteppingKeepsSelected(st, Require(st, requirer, d, reg).value, d.source, rs, Select(rs, TagsOf(reg, d.source)).value, reg);
    }
  }

  /** Requirements, fetched versions and the queue only grow; the new requirement is recorded. */
  lemma RequireGrows(st: State, requirer: string, d: Dep, reg: Registry)
    requires Require(st, requirer, d, reg).Ok?
    ensures var st' := Require(st, requirer, d, reg).value;
            && Recorded(st', requirer, d)
            && Grows(st.fetched, st'.fetched)
            && (forall m :: m in st.queue ==> m in st'.queue)
            && (forall s, r :: r in ReqsOf(st, s) ==> r in ReqsOf(st', s))
  {
    hide ParseConstraint, Select;
  }

  lemma GrowingKeepsHandled(st: State, st': State, m: Manifest)
    requires (forall n :: n in st.queue ==> n in st'.queue) && (forall s, r :: r in ReqsOf(st, s) ==> r in ReqsOf(st', s))
    requires Handled(st, m)
    ensures Handled(st', m)
  {
    if m !in st.queue {
      forall j | 0 <= j < |m.deps| ensures Recorded(st', m.name, m.deps[j]) { assert Recorded(st, m.name, m.deps[j]); }
    }
  }

  /** A newly fetched version waits in the queue. */
  lemma RequireQueuesNew(st: State, requirer: string, d: Dep, reg: Registry)
    requires Selected(st, reg) && Require(st, requirer, d, reg).Ok?
    ensures var st' := Require(st, requirer, d, reg).value;
            forall k :: k in st'.fetched && k !in st.fetched && k in reg.manifests ==> reg.manifests[k] in st'.queue
  {
    hide ParseConstraint, Select;
    assert SelectedAt(st, reg, d.source);
    if d.replace == "" {
      RequireSteps(st, requirer, d, reg);
      var pick := Select(NewReqs(st, requirer, d), TagsOf(reg, d.source)).value;
      if (d.source, pick) !in st.fetched && (d.source, pick) in reg.manifests {
        var m := reg.manifests[(d.source, pick)];
        assert Require(st, requirer, d, reg).value.queue == st.queue + [m];
      }
    }
  }

  lemma RequireKeepsComplete(st: State, m: Manifest, i: nat, root: Manifest, reg: Registry)
    requires Selected(st, reg) && Complete(st, root, reg, Some(m)) && RecordedUpTo(st, m, i) && i < |m.deps|
    requires Require(st, m.name, m.deps[i], reg).Ok?
    ensures var st' := Require(st, m.name, m.deps[i], reg).value;
            Complete(st', root, reg, Some(m)) && RecordedUpTo(st', m, i + 1)
  {
    hide ParseConstraint, Select;
    var st' := Require(st, m.name, m.deps[i], reg).value;
    RequireGrows(st, m.name, m.deps[i], reg);
    RequireQueuesNew(st, m.name, m.deps[i], reg);
    if m != root { GrowingKeepsHandled(st, st', root); }
    forall k | k in st'.fetched && k in reg.manifests && reg.manifests[k] != m ensures Handled(st', reg.manifests[k]) {
      if k in st.fetched { GrowingKeepsHandled(st, st', reg.manifests[k]); }
    }
    forall j | 0 <= j < i + 1 ensures Recorded(st', m.name, m.deps[j]) {
      if j < i { assert Recorded(st, m.name, m.deps[j]); }
    }
  }

  lemma KnownGrows(m: Manifest, st: State, st': State, root: Manifest, reg: Registry)
    requires Known(m, st, root, reg) && Grows(st.fetched, st'.fetched)
    ensures Known(m, st', root, reg)
  {
    if m != root {
      var k :| k in st.fetched && k in reg.manifests && reg.manifests[k] == m;
      assert k in st'.fetched;
    }
  }

  lemma AskedGrows(s: string, r: Requirement, st: State, st': State, root: Manifest, reg: Registry)
    requires Asked(s, r, st, root, reg) && Grows(st.fetched, st'.fetched)
    ensures Asked(s, r, st', root, reg)
  {
    var m, d :| Known(m, st, root, reg) && d in m.deps && d.source == s && d.replace == ""
                && r.requirer == m.name && ParseConstraint(d.version) == Some(r.c);
    KnownGrows(m, st, st', root, reg);
  }

  lemma SteppingKeepsAsked(st: State, st': State, m: Manifest, d: Dep, rs: seq<Requirement>, pick: Pick, root: Manifest, reg: Registry)
    requires FromManifests(st, root, reg) && Known(m, st, root, reg) && d in m.deps && d.replace == ""
    requires ParseConstraint(d.version).Some? && rs == NewReqs(st, m.name, d) && Stepped(st, st', d.source, rs, pick)
    ensures forall s, r :: s in st'.reqs && r in st'.reqs[s] ==> Asked(s, r, st', root, reg)
  {
    KnownGrows(m, st, st', root, reg);
    forall s, r | s in st'.reqs && r in st'.reqs[s] ensures Asked(s, r, st', root, reg) {
      if r in ReqsOf(st, s) { AskedGrows(s, r, st, st', root, reg); }
    }
  }

  lemma RequireKeepsFromManifests(st: State, m: Manifest, d: Dep, root: Manifest, reg: Registry)
    requires Selected(st, reg) && FromManifests(st, root, reg) && Known(m, st, root, reg) && d in m.deps
    requires Require(st, m.name, d, reg).Ok?
    ensures FromManifests(Require(st, m.name, d, reg).value, root, reg)
  {
    hide ParseConstraint, Select;
    if d.replace == "" {
      var st' := Require(st, m.name, d, reg).value;
      assert SelectedAt(st, reg, d.source);
      RequireSteps(st, m.name, d, reg);
      var rs := NewReqs(st, m.name, d);
      SteppingKeepsAsked(st, st', m, d, rs, Select(rs, TagsOf(reg, d.source)).value, root, reg);
      forall n | n in st'.queue ensures Known(n, st', root, reg) {
        if n in st.queue { KnownGrows(n, st, st', root, reg); } else { QueuedIsFetched(st, m.name, d, reg, n); }
      }
    }
  }

  lemma QueuedIsFetched(st: State, requirer: string, d: Dep, reg: Registry, n: Manifest)
    requires Selected(st, reg) && Require(st, requirer, d, reg).Ok?
    requires n in Require(st, requirer, d, reg).value.queue && n !in st.queue
    ensures var st' := Require(st, requirer, d, reg).value;
            exists k :: k in st'.fetched && k in reg.manifests && reg.manifests[k] == n
  {
    hide ParseConstraint, Select;
    assert SelectedAt(st, reg, d.source);
    RequireSteps(st, requirer, d, reg);
    var k := (d.source, Select(NewReqs(st, requirer, d), TagsOf(reg, d.source)).value);
    assert k in Require(st, requirer, d, reg).value.fetched;
  }

  // ---------------------------------------------------------------- termination

  /** What a run can use up: a source has been required, a version of it shut out, or pinned. */
  datatype Token = Required(source: string) | ShutOut(source: string, v: Semver) | Pinned(source: string, v: Semver)

  function Deps(root: Manifest, reg: Registry): set<Dep> {
    (set d | d in root.deps) + (set k, d | k in reg.manifests && d in reg.manifests[k].deps :: d)
  }

  function Bounds(version: string): set<Semver> {
    match ParseConstraint(version) case Some(c) => (set cm | cm in c.comps :: cm.v) case None => {}
  }

  function AllVersions(root: Manifest, reg: Registry): set<Semver> {
    (set d, v | d in Deps(root, reg) && v in Bounds(d.version) :: v) + (set s, v | s in reg.tags && v in reg.tags[s] :: v)
  }

  function Universe(root: Manifest, reg: Registry): set<Token> {
    var sources := set d | d in Deps(root, reg) :: d.source;
    (set s | s in sources :: Required(s))
    + (set s, v | s in sources && v in AllVersions(root, reg) :: ShutOut(s, v))
    + (set s, v | s in sources && v in AllVersions(root, reg) :: Pinned(s, v))
  }

  predicate IsSpent(t: Token, st: State) {
    match t
    case Required(s) => s in st.reqs
    case ShutOut(s, v) => !AdmittedByAll(ReqsOf(st, s), v)
    case Pinned(s, v) => v in Pins(ReqsOf(st, s))
  }

  function Spent(st: State, root: Manifest, reg: Registry): set<Token> { set t | t in Universe(root, reg) && IsSpent(t, st) }

  lemma {:induction false} FloorIsABound(rs: seq<Requirement>)
    requires MaxFloorOf(rs).Some?
    ensures exists r, cm :: r in rs && cm in r.c.comps && cm.v == MaxFloorOf(rs).value
    decreases |rs|
  {
    var rest, last := rs[..|rs| - 1], rs[|rs| - 1];
    assert rs == rest + [last];
    if MaxFloorOf(rs) == MaxFloorOf(rest) {
      FloorIsABound(rest);
    } else {
      FloorIsGreatest(last.c.comps);
    }
  }

  /** Bounds of recorded requirements, and tags, are among the versions of the registry. */
  lemma BoundIsKnown(st: State, root: Manifest, reg: Registry, s: string, r: Requirement, cm: Comparator)
    requires FromManifests(st, root, reg) && r in ReqsOf(st, s) && cm in r.c.comps
    ensures cm.v in AllVersions(root, reg)
  {
    assert Asked(s, r, st, root, reg);
    var m, d :| Known(m, st, root, reg) && d in m.deps && d.source == s && d.replace == ""
                && r.requirer == m.name && ParseConstraint(d.version) == Some(r.c);
    assert d in Deps(root, reg) && cm.v in Bounds(d.version);
  }

  lemma SelectedIsKnown(st: State, root: Manifest, reg: Registry, s: string, v: Semver)
    requires Selected(st, reg) && FromManifests(st, root, reg) && s in st.reqs
    requires v in Candidates(st.reqs[s], TagsOf(reg, s)) || (s in st.sel && st.sel[s] == Tag(v))
    ensures v in AllVersions(root, reg)
  {
    hide ParseConstraint;
    assert SelectedAt(st, reg, s);
    var rs := st.reqs[s];
    KindsOf(rs);
    SelectionMeetsAll(rs, TagsOf(reg, s));
    if v in Pins(rs) {
      var r :| r in rs && IsPin(r.c) && r.c.comps[0].v == v;
      BoundIsKnown(st, root, reg, s, r, r.c.comps[0]);
    } else if v in TagsOf(reg, s) {
    } else {
      FloorIsABound(rs);
      var r, cm :| r in rs && cm in r.c.comps && cm.v == MaxFloorOf(rs).value;
      BoundIsKnown(st, root, reg, s, r, cm);
    }
  }

  /** Tokens are never given back. */
  lemma SteppingKeepsSpent(st: State, st': State, requirer: string, d: Dep, pick: Pick, t: Token)
    requires ParseConstraint(d.version).Some? && Stepped(st, st', d.source, NewReqs(st, requirer, d), pick)
    requires IsSpent(t, st)
    ensures IsSpent(t, st')
  {
    OneMore(ReqsOf(st, d.source), Requirement(requirer, ParseConstraint(d.version).value));
  }

  /** A token the registry knows is spent by the step from st to st'. */
  ghost predicate Spends(st: State, st': State, root: Manifest, reg: Registry) {
    exists t :: t in Universe(root, reg) && !IsSpent(t, st) && IsSpent(t, st')
  }

  lemma ShuttingOutSpends(st: State, st': State, d: Dep, r: Requirement, v: Semver, root: Manifest, reg: Registry)
    requires d in Deps(root, reg) && v in AllVersions(root, reg)
    requires ReqsOf(st', d.source) == ReqsOf(st, d.source) + [r] && AdmittedByAll(ReqsOf(st, d.source), v) && !Admits(r.c, v)
    ensures Spends(st, st', root, reg)
  {
    OneMore(ReqsOf(st, d.source), r);
    assert ShutOut(d.source, v) in Universe(root, reg);
  }

  lemma PinningSpends(st: State, st': State, d: Dep, r: Requirement, root: Manifest, reg: Registry)
    requires d in Deps(root, reg) && ParseConstraint(d.version) == Some(r.c)
    requires ReqsOf(st', d.source) == ReqsOf(st, d.source) + [r] && IsPin(r.c) && r.c.comps[0].v !in Pins(ReqsOf(st, d.source))
    ensures Spends(st, st', root, reg)
  {
    OneMore(ReqsOf(st, d.source), r);
    var v := r.c.comps[0].v;
    assert v in Bounds(d.version);
    assert Pinned(d.source, v) in Universe(root, reg);
  }

  /** A changed selection spends a token. */
  lemma MovingSpends(st: State, st': State, d: Dep, r: Requirement, pick: Pick, root: Manifest, reg: Registry)
    requires Selected(st, reg) && FromManifests(st, root, reg) && d in Deps(root, reg) && ParseConstraint(d.version) == Some(r.c)
    requires Stepped(st, st', d.source, ReqsOf(st, d.source) + [r], pick)
    requires Select(ReqsOf(st, d.source) + [r], TagsOf(reg, d.source)) == Ok(pick)
    requires d.source in st.sel ==> st.sel[d.source] != pick
    ensures Spends(st, st', root, reg)
  {
    var s, rs, tags := d.source, ReqsOf(st, d.source), TagsOf(reg, d.source);
    assert SelectedAt(st, reg, s);
    if s !in st.reqs {
      assert Required(s) in Universe(root, reg);
    } else if IsPin(r.c) && r.c.comps[0].v !in Pins(rs) {
      PinningSpends(st, st', d, r, root, reg);
    } else if v :| v in Candidates(rs, tags) && AdmittedByAll(rs, v) && !Admits(r.c, v) {
      SelectedIsKnown(st, root, reg, s, v);
      ShuttingOutSpends(st, st', d, r, v, root, reg);
    } else if st.sel[s].Tag? && !Admits(r.c, st.sel[s].v) {
      SelectionMeetsAll(rs, tags);
      SelectedIsKnown(st, root, reg, s, st.sel[s].v);
      ShuttingOutSpends(st, st', d, r, st.sel[s].v, root, reg);
    } else {
      assert AddsNothing(rs, r, tags);
      SelectionStays(rs, r, tags);
    }
  }

  /** A step that queues a manifest spends a token, and no step gives one back. */
  lemma QueueingSpends(st: State, m: Manifest, d: Dep, root: Manifest, reg: Registry)
    requires Selected(st, reg) && FromManifests(st, root, reg) && Known(m, st, root, reg) && d in m.deps
    requires Require(st, m.name, d, reg).Ok?
    ensures var st' := Require(st, m.name, d, reg).value;
            && Spent(st, root, reg) <= Spent(st', root, reg)
            && (st'.queue == st.queue || Spent(st, root, reg) < Spent(st', root, reg))
  {
    hide ParseConstraint, Select;
    if d.replace == "" {
      var st' := Require(st, m.name, d, reg).value;
      assert SelectedAt(st, reg, d.source);
      RequireSteps(st, m.name, d, reg);
      assert d in Deps(root, reg);
      var r := Requirement(m.name, ParseConstraint(d.version).value);
      var pick := Select(NewReqs(st, m.name, d), TagsOf(reg, d.source)).value;
      forall t | IsSpent(t, st) ensures IsSpent(t, st') { SteppingKeepsSpent(st, st', m.name, d, pick, t); }
      if d.source in st.sel && st.sel[d.source] == pick {
        assert st'.queue == st.queue;
      } else {
        MovingSpends(st, st', d, r, pick, root, reg);
        var t :| t in Universe(root, reg) && !IsSpent(t, st) && IsSpent(t, st');
        assert t in Spent(st', root, reg) && t !in Spent(st, root, reg);
      }
    }
  }

  /** What is left to spend. */
  function Left(st: State, root: Manifest, reg: Registry): set<Token> { Universe(root, reg) - Spent(st, root, reg) }

  lemma SpendingShrinks(st: State, st': State, root: Manifest, reg: Registry)
    requires Spent(st, root, reg) <= Spent(st', root, reg)
    ensures Left(st', root, reg) == Left(st, root, reg) || Left(st', root, reg) < Left(st, root, reg)
    ensures Spent(st, root, reg) < Spent(st', root, reg) ==> Left(st', root, reg) < Left(st, root, reg)
  {
    hide Universe, IsSpent;
    if t :| t in Spent(st', root, reg) && t !in Spent(st, root, reg) {
      assert t in Left(st, root, reg) && t !in Left(st', root, reg);
    } else {
      assert forall t :: t in Spent(st', root, reg) <==> t in Spent(st, root, reg);
    }
  }

  // ---------------------------------------------------------------- what moves

  /** Every `=` pin is a tag of its source. */
  ghost predicate Released(root: Manifest, reg: Registry) {
    forall d :: d in Deps(root, reg) && ParseConstraint(d.version).Some? && IsPin(ParseConstraint(d.version).value) ==>
      ParseConstraint(d.version).value.comps[0].v in TagsOf(reg, d.source)
  }

  /** Over such a registry every step keeps each selection or raises it; a commit stays. */
  lemma RequireNeverLowers(st: State, m: Manifest, d: Dep, root: Manifest, reg: Registry, s: string)
    requires Selected(st, reg) && FromManifests(st, root, reg) && Known(m, st, root, reg) && d in m.deps
    requires Require(st, m.name, d, reg).Ok? && Released(root, reg) && s in st.sel
    ensures var st' := Require(st, m.name, d, reg).value;
            && s in st'.sel
            && (st.sel[s].Sha? ==> st'.sel[s] == st.sel[s])
            && (st.sel[s].Tag? ==> st'.sel[s].Tag? && Compare(st.sel[s].v, st'.sel[s].v) <= 0)
  {
    var st' := Require(st, m.name, d, reg).value;
    assert SelectedAt(st, reg, s);
    if st.sel[s].Tag? { CompareSymmetric(st.sel[s].v, st.sel[s].v); }
    if d.replace == "" {
      assert SelectedAt(st, reg, d.source);
      RequireSteps(st, m.name, d, reg);
      if s == d.source { MoreNeverLowers(st, m, d, root, reg); }
    }
  }

  lemma MoreNeverLowers(st: State, m: Manifest, d: Dep, root: Manifest, reg: Registry)
    requires Selected(st, reg) && FromManifests(st, root, reg) && Known(m, st, root, reg) && d in m.deps
    requires Released(root, reg) && d.source in st.sel && ParseConstraint(d.version).Some?
    requires Select(NewReqs(st, m.name, d), TagsOf(reg, d.source)).Ok?
    ensures var old_, new_ := st.sel[d.source], Select(NewReqs(st, m.name, d), TagsOf(reg, d.source)).value;
            && (old_.Sha? ==> new_ == old_)
            && (old_.Tag? ==> new_.Tag? && Compare(old_.v, new_.v) <= 0)
  {
    assert SelectedAt(st, reg, d.source);
    var rs, r, tags := st.reqs[d.source], Requirement(m.name, ParseConstraint(d.version).value), TagsOf(reg, d.source);
    OneMore(rs, r);
    assert d in Deps(root, reg);
    if st.sel[d.source].Sha? {
      assert Shas(rs + [r])[0] == Shas(rs)[0];
    } else {
      RangeOrCandidates(rs, tags);
      NeverLowers(rs, r, tags);
    }
  }

  // ---------------------------------------------------------------- the bound modules

  /** The pin that version k, as a binding package, gives the Go module `mod`. */
  function PinOf(k: (string, Pick), mod: string, reg: Registry): Option<string> {
    if k !in reg.manifests then None else
    var m := reg.manifests[k];
    if m.packageKind == "binding" && mod != "" && m.binds == mod && m.bindsGo != "" then Some(m.bindsGo) else None
  }

  /** Of the versions fetched, number i is the first to bind the module. */
  ghost predicate FirstBinder(ks: seq<(string, Pick)>, i: nat, mod: string, reg: Registry) {
    && i < |ks| && PinOf(ks[i], mod, reg).Some?
    && forall j :: 0 <= j < i ==> PinOf(ks[j], mod, reg) == None
  }

  /** A module is bound once a version that binds it was fetched, to the pin of the first. */
  ghost predicate BoundAt(st: State, reg: Registry, mod: string) {
    && (mod !in st.bound ==> forall j :: 0 <= j < |st.fetched| ==> PinOf(st.fetched[j], mod, reg) == None)
    && (mod in st.bound ==>
          exists i: nat :: FirstBinder(st.fetched, i, mod, reg) && PinOf(st.fetched[i], mod, reg) == Some(st.bound[mod]))
  }

  ghost predicate BoundByFirst(st: State, reg: Registry) { forall mod: string :: BoundAt(st, reg, mod) }

  /** What one dependency does to the bound modules. */
  lemma RequireBinds(st: State, requirer: string, d: Dep, reg: Registry)
    requires SelectedAt(st, reg, d.source) && Require(st, requirer, d, reg).Ok?
    ensures var st' := Require(st, requirer, d, reg).value;
            || (st'.fetched == st.fetched && st'.bound == st.bound)
            || exists k :: && st'.fetched == st.fetched + [k]
                           && st'.bound == if k in reg.manifests then Bind(st.bound, reg.manifests[k]) else st.bound
  {
    hide ParseConstraint, Select, Bind;
    var st' := Require(st, requirer, d, reg).value;
    if st'.fetched != st.fetched {
      var k := (d.source, st'.sel[d.source]);
      assert st'.fetched == st.fetched + [k];
    }
  }

  lemma FetchingKeepsBound(st: State, st': State, k: (string, Pick), reg: Registry, mod: string)
    requires BoundAt(st, reg, mod) && st'.fetched == st.fetched + [k]
    requires st'.bound == if k in reg.manifests then Bind(st.bound, reg.manifests[k]) else st.bound
    ensures BoundAt(st', reg, mod)
  {
    var n := |st.fetched|;
    assert st'.fetched[n] == k && forall j :: 0 <= j < n ==> st'.fetched[j] == st.fetched[j];
    if mod in st.bound {
      var i: nat :| FirstBinder(st.fetched, i, mod, reg) && PinOf(st.fetched[i], mod, reg) == Some(st.bound[mod]);
      assert FirstBinder(st'.fetched, i, mod, reg);
    } else if mod in st'.bound {
      assert FirstBinder(st'.fetched, n, mod, reg);
    }
  }

  lemma RequireKeepsBound(st: State, requirer: string, d: Dep, reg: Registry)
    requires Selected(st, reg) && BoundByFirst(st, reg) && Require(st, requirer, d, reg).Ok?
    ensures BoundByFirst(Require(st, requirer, d, reg).value, reg)
  {
    hide ParseConstraint, Select, Bind, Require;
    var st' := Require(st, requirer, d, reg).value;
    assert SelectedAt(st, reg, d.source);
    RequireBinds(st, requirer, d, reg);
    forall mod ensures BoundAt(st', reg, mod) {
      assert BoundAt(st, reg, mod);
      if st'.fetched != st.fetched || st'.bound != st.bound {
        var k :| st'.fetched == st.fetched + [k]
                 && st'.bound == if k in reg.manifests then Bind(st.bound, reg.manifests[k]) else st.bound;
        FetchingKeepsBound(st, st', k, reg, mod);
      }
    }
  }

  /** In the end the pin of a bound module is that of the binding package selected if and only
      if the version first fetched that binds the module gives the same pin. */
  lemma BoundFollowsExactly(st: State, reg: Registry, s: string) returns (i: nat)
    requires Selected(st, reg) && BoundByFirst(st, reg)
    requires s in st.sel && (s, st.sel[s]) in reg.manifests
    requires PinOf((s, st.sel[s]), reg.manifests[(s, st.sel[s])].binds, reg).Some?
    ensures var m := reg.manifests[(s, st.sel[s])];
            && FirstBinder(st.fetched, i, m.binds, reg)
            && m.binds in st.bound
            && (st.bound[m.binds] == m.bindsGo <==> PinOf(st.fetched[i], m.binds, reg) == Some(m.bindsGo))
  {
    var m := reg.manifests[(s, st.sel[s])];
    assert SelectedAt(st, reg, s) && BoundAt(st, reg, m.binds);
    var j :| 0 <= j < |st.fetched| && st.fetched[j] == (s, st.sel[s]);
    assert PinOf(st.fetched[j], m.binds, reg) == Some(m.bindsGo);
    i :| FirstBinder(st.fetched, i, m.binds, reg) && PinOf(st.fetched[i], m.binds, reg) == Some(st.bound[m.binds]);
  }

  // ---------------------------------------------------------------- a run as a function

  /** The dependencies of m from number i on. */
  function Dependencies(st: State, m: Manifest, i: nat, reg: Registry): Result<State, Error>
    requires i <= |m.deps|
    decreases |m.deps| - i
  {
    if i == |m.deps| then Ok(st) else
    match Require(st, m.name, m.deps[i], reg)
    case Ok(st') => Dependencies(st', m, i + 1, reg)
    case Err(e) => Err(e)
  }

  /** The manifest at the head of the queue. */
  function Round(st: State, reg: Registry): Result<State, Error> {
    if st.queue == [] then Ok(st) else Dependencies(st.(queue := st.queue[1..]), st.queue[0], 0, reg)
  }

  function Rounds(st: State, n: nat, reg: Registry): Result<State, Error> {
    if n == 0 then Ok(st) else
    match Rounds(st, n - 1, reg) case Ok(st') => Round(st', reg) case Err(e) => Err(e)
  }

  // ---------------------------------------------------------------- the worklist

  /** The fixpoint: every selection is the one its requirements give, meets all of them, and
      the requirements of the root and of every selected version are among them. */
  ghost predicate Resolved(st: State, root: Manifest, reg: Registry) {
    && Selected(st, reg)
    && FromManifests(st, root, reg)
    && RecordedUpTo(st, root, |root.deps|)
    && (forall s :: s in st.sel && (s, st.sel[s]) in reg.manifests ==>
          RecordedUpTo(st, reg.manifests[(s, st.sel[s])], |reg.manifests[(s, st.sel[s])].deps|))
  }

  /** Every dependency of the root, and of every selected version, is met by the selection. */
  lemma ResolvedIsMet(st: State, root: Manifest, reg: Registry, m: Manifest, d: Dep)
    requires Resolved(st, root, reg) && d in m.deps && d.replace == ""
    requires m == root || exists s :: s in st.sel && (s, st.sel[s]) in reg.manifests && reg.manifests[(s, st.sel[s])] == m
    ensures d.source in st.sel && ParseConstraint(d.version).Some?
    ensures Meets(st.sel[d.source], ParseConstraint(d.version).value)
  {
    var j :| 0 <= j < |m.deps| && m.deps[j] == d;
    assert RecordedUpTo(st, m, |m.deps|) && Recorded(st, m.name, m.deps[j]);
    assert SelectedAt(st, reg, d.source);
    SelectionMeetsAll(st.reqs[d.source], TagsOf(reg, d.source));
  }

  /** In the fixpoint a source that is required at a commit is at that commit, and nothing else is required
      of it. Any other is at the least version all its requirements admit, of those pinned and, once a
      range is required, of those tagged. Only if there are none of these is it at a lower bound. */
  lemma ResolvedIsLeast(st: State, root: Manifest, reg: Registry, s: string)
    requires Resolved(st, root, reg) && s in st.sel
    ensures s in st.reqs && st.reqs[s] != []
    ensures st.sel[s].Sha? ==> st.sel[s].commit != "" && forall r :: r in st.reqs[s] ==> r.c.commit == st.sel[s].commit
    ensures st.sel[s].Tag? ==>
              var rs, v := st.reqs[s], st.sel[s].v;
              var tags := if s in reg.tags then reg.tags[s] else [];
              && (forall r :: r in rs ==> r.c.commit == "") && AdmittedByAll(rs, v)
              && (forall w :: IsCandidate(w, rs, tags) && AdmittedByAll(rs, w) ==> Compare(v, w) <= 0)
              && (IsCandidate(v, rs, tags) || (IsLowerBound(v, rs) && !exists w :: IsCandidate(w, rs, tags)))
  {
    hide AdmittedByAll, IsCandidate, IsLowerBound, Compare, Mvs, FromManifests, RecordedUpTo;
    assert SelectedAt(st, reg, s);
    var rs := st.reqs[s];
    CommitsExactly(rs, TagsOf(reg, s));
    if st.sel[s].Tag? {
      ShasExactly(rs);
      SelectsExactly(rs, TagsOf(reg, s));
      MaxFloorIsGreatest(rs);
    }
  }

  /** Why the dependency d of the manifest called `requirer` stops a run: its version cannot be read, no
      version can be selected for its source, or the version newly selected declares a kind, d declares
      a kind, and they differ. */
  ghost predicate StopsAt(e: Error, st: State, requirer: string, d: Dep, reg: Registry) {
    && d.replace == ""
    && match e
       case BadVersion(dep) => dep == d.name && ParseConstraint(d.version).None?
       case Unselectable(s, why) =>
         && s == d.source && ParseConstraint(d.version).Some?
         && Select(NewReqs(st, requirer, d), TagsOf(reg, s)) == Err(why)
       case KindMismatch(dep) =>
         && dep == d.name && ParseConstraint(d.version).Some?
         && var pick := Select(NewReqs(st, requirer, d), TagsOf(reg, d.source));
            && pick.Ok? && !(d.source in st.sel && st.sel[d.source] == pick.value)
            && (d.source, pick.value) in reg.manifests
            && var kind := reg.manifests[(d.source, pick.value)].packageKind;
               d.kind != "" && kind != "" && d.kind != kind
  }

  lemma StopsExactly(e: Error, st: State, requirer: string, d: Dep, reg: Registry)
    requires SelectedAt(st, reg, d.source)
    ensures Require(st, requirer, d, reg) == Err(e) <==> StopsAt(e, st, requirer, d, reg)
  {
    hide ParseConstraint, Select, Bind;
  }

  /** A dependency that stops the run, at a state every invariant holds of. */
  ghost predicate FailsAt(e: Error, root: Manifest, reg: Registry) {
    exists st, m, d :: Selected(st, reg) && FromManifests(st, root, reg) && Known(m, st, root, reg)
                       && d in m.deps && StopsAt(e, st, m.name, d, reg)
  }

  // ---------------------------------------------------------------- kinds and names

  /** A dependency asked for version k, and the kind it declares is the kind k declares, if both do. */
  ghost predicate Agreed(k: (string, Pick), st: State, root: Manifest, reg: Registry)
    requires k in reg.manifests
  {
    exists m, d :: Known(m, st, root, reg) && d in m.deps && d.source == k.0 && d.replace == ""
                   && (d.kind == "" || reg.manifests[k].packageKind == "" || d.kind == reg.manifests[k].packageKind)
  }

  /** A source goes by the name of the dependency that first required it. */
  ghost predicate NamedByFirst(s: string, st: State, root: Manifest, reg: Registry)
    requires s in st.reqs
  {
    exists m, d :: Known(m, st, root, reg) && d in m.deps && d.source == s && d.replace == ""
                   && ParseConstraint(d.version).Some? && st.reqs[s] != []
                   && st.reqs[s][0] == Requirement(m.name, ParseConstraint(d.version).value)
                   && s in st.name && (d.name != "" ==> st.name[s] == d.name)
  }

  ghost predicate Traced(st: State, root: Manifest, reg: Registry) {
    && (forall k :: k in st.fetched && k in reg.manifests ==> Agreed(k, st, root, reg))
    && (forall s :: s in st.reqs ==> NamedByFirst(s, st, root, reg))
    && (forall s :: s in st.name ==> s in st.reqs)
  }

  lemma AgreedGrows(k: (string, Pick), st: State, st': State, root: Manifest, reg: Registry)
    requires k in reg.manifests && Agreed(k, st, root, reg) && Grows(st.fetched, st'.fetched)
    ensures Agreed(k, st', root, reg)
  {
    var m, d :| Known(m, st, root, reg) && d in m.deps && d.source == k.0 && d.replace == ""
                && (d.kind == "" || reg.manifests[k].packageKind == "" || d.kind == reg.manifests[k].packageKind);
    KnownGrows(m, st, st', root, reg);
  }

  lemma NameStays(s: string, st: State, st': State, root: Manifest, reg: Registry)
    requires s in st.reqs && NamedByFirst(s, st, root, reg) && Grows(st.fetched, st'.fetched)
    requires s in st'.reqs && st'.reqs[s] != [] && st'.reqs[s][0] == st.reqs[s][0]
    requires s in st'.name && (st.name[s] != "" ==> st'.name[s] == st.name[s])
    ensures NamedByFirst(s, st', root, reg)
  {
    hide ParseConstraint;
    var m, d :| Known(m, st, root, reg) && d in m.deps && d.source == s && d.replace == ""
                && ParseConstraint(d.version).Some? && st.reqs[s] != []
                && st.reqs[s][0] == Requirement(m.name, ParseConstraint(d.version).value)
                && s in st.name && (d.name != "" ==> st.name[s] == d.name);
    KnownGrows(m, st, st', root, reg);
  }

  /** What one dependency does to the names, and to the versions fetched. */
  lemma RequireNames(st: State, requirer: string, d: Dep, reg: Registry)
    requires SelectedAt(st, reg, d.source) && d.replace == "" && Require(st, requirer, d, reg).Ok?
    ensures var st' := Require(st, requirer, d, reg).value;
            && d.source in st'.name && (st'.name[d.source] == d.name || (d.source in st.name && st'.name[d.source] == st.name[d.source]))
            && (forall s :: s in st.name && (st.name[s] != "" || s != d.source) ==> s in st'.name && st'.name[s] == st.name[s])
            && (d.source !in st.name ==> st'.name[d.source] == d.name)
            && (forall k :: k in st'.fetched && k !in st.fetched && k in reg.manifests ==>
                  k.0 == d.source && (d.kind == "" || reg.manifests[k].packageKind == "" || d.kind == reg.manifests[k].packageKind))
  {
    hide ParseConstraint, Select, Bind;
  }

  lemma RequireKeepsAgreed(st: State, m: Manifest, d: Dep, root: Manifest, reg: Registry, k: (string, Pick))
    requires Selected(st, reg) && Traced(st, root, reg) && Known(m, st, root, reg) && d in m.deps
    requires Require(st, m.name, d, reg).Ok?
    requires k in Require(st, m.name, d, reg).value.fetched && k in reg.manifests
    ensures Agreed(k, Require(st, m.name, d, reg).value, root, reg)
  {
    hide Require, ParseConstraint, Select, Agreed, NamedByFirst;
    var st' := Require(st, m.name, d, reg).value;
    RequireGrows(st, m.name, d, reg);
    if k in st.fetched {
      AgreedGrows(k, st, st', root, reg);
    } else {
      FirstAgreed(st, m, d, root, reg, k);
    }
  }

  lemma FirstAgreed(st: State, m: Manifest, d: Dep, root: Manifest, reg: Registry, k: (string, Pick))
    requires Selected(st, reg) && Known(m, st, root, reg) && d in m.deps && Require(st, m.name, d, reg).Ok?
    requires k in Require(st, m.name, d, reg).value.fetched && k in reg.manifests && k !in st.fetched
    ensures Agreed(k, Require(st, m.name, d, reg).value, root, reg)
  {
    hide Select, ParseConstraint;
    var st' := Require(st, m.name, d, reg).value;
    RequireGrows(st, m.name, d, reg);
    KnownGrows(m, st, st', root, reg);
    assert SelectedAt(st, reg, d.source);
    assert d.replace == "";
    RequireNames(st, m.name, d, reg);
  }

  lemma RequireKeepsName(st: State, m: Manifest, d: Dep, root: Manifest, reg: Registry, s: string)
    requires Selected(st, reg) && Traced(st, root, reg) && Known(m, st, root, reg) && d in m.deps && d.replace == ""
    requires Require(st, m.name, d, reg).Ok? && s in Require(st, m.name, d, reg).value.reqs
    ensures NamedByFirst(s, Require(st, m.name, d, reg).value, root, reg)
  {
    hide Require, ParseConstraint, Select, Agreed, IsBinding;
    var st' := Require(st, m.name, d, reg).value;
    assert SelectedAt(st, reg, d.source) && SelectedAt(st, reg, s);
    RequireGrows(st, m.name, d, reg);
    RequireSteps(st, m.name, d, reg);
    RequireNames(st, m.name, d, reg);
    KnownGrows(m, st, st', root, reg);
    if s in st.reqs {
      assert NamedByFirst(s, st, root, reg);
      NameStays(s, st, st', root, reg);
    }
  }

  lemma RequireKeepsTraced(st: State, m: Manifest, d: Dep, root: Manifest, reg: Registry)
    requires Selected(st, reg) && Traced(st, root, reg) && Known(m, st, root, reg) && d in m.deps
    requires Require(st, m.name, d, reg).Ok?
    ensures Traced(Require(st, m.name, d, reg).value, root, reg)
  {
    var st' := Require(st, m.name, d, reg).value;
    if d.replace == "" {
      KeepsTraced(st, m, d, root, reg);
    } else {
      assert st' == st;
    }
  }

  lemma KeepsTraced(st: State, m: Manifest, d: Dep, root: Manifest, reg: Registry)
    requires Selected(st, reg) && Traced(st, root, reg) && Known(m, st, root, reg) && d in m.deps && d.replace == ""
    requires Require(st, m.name, d, reg).Ok?
    ensures Traced(Require(st, m.name, d, reg).value, root, reg)
  {
    hide Require, ParseConstraint, Select, Agreed, NamedByFirst, Stepped;
    var st' := Require(st, m.name, d, reg).value;
    forall k | k in st'.fetched && k in reg.manifests ensures Agreed(k, st', root, reg) {
      RequireKeepsAgreed(st, m, d, root, reg, k);
    }
    forall s | s in st'.reqs ensures NamedByFirst(s, st', root, reg) { RequireKeepsName(st, m, d, root, reg, s); }
    assert SelectedAt(st, reg, d.source);
    NamesOnly(st, m.name, d, reg);
  }

  lemma NamesOnly(st: State, requirer: string, d: Dep, reg: Registry)
    requires SelectedAt(st, reg, d.source) && Require(st, requirer, d, reg).Ok?
    requires forall s :: s in st.name ==> s in st.reqs
    ensures var st' := Require(st, requirer, d, reg).value; forall s :: s in st'.name ==> s in st'.reqs
  {
    hide ParseConstraint, Select, Bind;
  }

  // ---------------------------------------------------------------- the lock rows

  datatype Row = Row(name: string, source: string, version: string)

  function Spelled(p: Pick): string { match p case Tag(v) => Show(v) case Sha(commit) => commit }

  /** lastSegment: what follows the last slash. */
  function LastSegment(path: string): (r: string)
    ensures '/' !in r && |r| <= |path| && path[|path| - |r|..] == r && (|r| < |path| ==> path[|path| - |r| - 1] == '/')
  {
    var i := IndexOf(path, '/');
    if i == |path| then path else
    var rest := path[i + 1..];
    var r := LastSegment(rest);
    assert path[|path| - |r|..] == rest[|rest| - |r|..];
    r
  }

  /** An Aril dependency wins the row over a bound module of the same source. */
  predicate IsRow(r: Row, st: State) {
    if r.source in st.sel then
      && (match st.sel[r.source] case Tag(v) => r.version == "v" + Core(v) case Sha(commit) => r.version == commit)
      && r.name == (if r.source in st.name then st.name[r.source] else "")
    else r.source in st.bound && r.version == st.bound[r.source] && r.name == LastSegment(r.source)
  }

  class Worklist {
    const reg: Registry
    var reqs: map<string, seq<Requirement>>
    var tags: map<string, seq<Semver>>
    var name: map<string, string>
    var sel: map<string, Pick>
    var expandedAt: map<string, Pick>
    var bound: map<string, string>
    var fetched: seq<(string, Pick)>
    var queue: seq<Manifest>

    constructor (reg: Registry, root: Manifest)
      ensures this.reg == reg && Now() == Start(root) && CacheIsTrue()
    {
      this.reg := reg;
      reqs, tags, name, sel, expandedAt, bound, fetched, queue := map[], map[], map[], map[], map[], map[], [], [root];
    }

    function Now(): State
      reads this
    {
      State(reqs, name, sel, expandedAt, bound, fetched, queue)
    }

    /** Tags are enumerated once per source. */
    ghost predicate CacheIsTrue()
      reads this
    {
      forall s :: s in tags ==> tags[s] == TagsOf(reg, s)
    }

    /** selectVersion, with the tags enumerated when a range asks for them. */
    method SelectFor(s: string, rs: seq<Requirement>) returns (r: Result<Pick, SelectError>)
      requires CacheIsTrue()
      modifies this`tags
      ensures CacheIsTrue() && r == Select(rs, TagsOf(reg, s))
    {
      if Shas(rs) == [] && HasRange(rs) {
        if s !in tags { tags := tags[s := TagsOf(reg, s)]; }
        r := SelectVersion(rs, tags[s]);
      } else {
        r := SelectVersion(rs, []);
      }
    }

    method AddDep(requirer: string, d: Dep) returns (err: Option<Error>)
      requires CacheIsTrue()
      modifies this
      ensures CacheIsTrue()
      ensures match Require(old(Now()), requirer, d, reg)
              case Ok(st) => err == None && Now() == st
              case Err(e) => err == Some(e)
    {
      hide ParseConstraint, Select;
      if d.replace != "" { return None; }
      var cons := ParseConstraint(d.version);
      if cons.None? { return Some(BadVersion(d.name)); }
      var s := d.source;
      var rs := (if s in reqs then reqs[s] else []) + [Requirement(requirer, cons.value)];
      var concrete := SelectFor(s, rs);
      if concrete.Err? { return Some(Unselectable(s, concrete.error)); }
      if !(s in name && name[s] != "") { name := name[s := d.name]; }
      reqs := reqs[s := rs];
      var pick := concrete.value;
      if s in sel && sel[s] == pick { return None; }
      err := ExpandDep(d, pick);
    }

    /** Fetches the newly selected version and queues its manifest. */
    method ExpandDep(d: Dep, pick: Pick) returns (err: Option<Error>)
      requires CacheIsTrue()
      modifies this`sel, this`fetched, this`expandedAt, this`bound, this`queue
      ensures match Expand(old(Now()), d, pick, reg)
              case Ok(st) => err == None && Now() == st
              case Err(e) => err == Some(e)
    {
      var s := d.source;
      sel := sel[s := pick];
      fetched := fetched + [(s, pick)];
      if s in expandedAt && expandedAt[s] == pick { return None; }
      expandedAt := expandedAt[s := pick];
      if (s, pick) !in reg.manifests { return None; }
      var m := reg.manifests[(s, pick)];
      if !KindGuard(d.kind, m.packageKind) { return Some(KindMismatch(d.name)); }
      if IsBinding(m) && m.binds !in bound {
        bound := bound[m.binds := m.bindsGo];
      }
      queue := queue + [m];
      return None;
    }

    /** The rows of the lock: one for each selected or bound source, in order of the sources. */
    method LockRows() returns (rows: seq<Row>)
      ensures forall i, j :: 0 <= i < j < |rows| ==> StringLess(rows[i].source, rows[j].source)
      ensures forall i :: 0 <= i < |rows| ==> IsRow(rows[i], Now())
      ensures forall s :: s in sel || s in bound ==> exists i :: 0 <= i < |rows| && rows[i].source == s
    {
      var sources := SortedSources();
      rows := [];
      for i := 0 to |sources|
        invariant |rows| == i && forall j :: 0 <= j < i ==> rows[j].source == sources[j] && IsRow(rows[j], Now())
      {
        var s := sources[i];
        var row := if s in sel then Row(if s in name then name[s] else "", s, Spelled(sel[s])) else Row(LastSegment(s), s, bound[s]);
        rows := rows + [row];
      }
      forall s | s in sel || s in bound ensures exists i :: 0 <= i < |rows| && rows[i].source == s {
        var i :| 0 <= i < |sources| && sources[i] == s;
        assert rows[i].source == s;
      }
    }

    method SortedSources() returns (sources: seq<string>)
      ensures forall s :: s in sources <==> s in sel || s in bound
      ensures forall i, j :: 0 <= i < j < |sources| ==> StringLess(sources[i], sources[j])
    {
      sources := [];
      var rest := sel.Keys + bound.Keys;
      while rest != {}
        invariant forall s :: s in rest || s in sources <==> s in sel || s in bound
        invariant forall s :: s in rest ==> s !in sources
        invariant forall i, j :: 0 <= i < j < |sources| ==> sources[i] != sources[j]
        decreases |rest|
      {
        var s :| s in rest;
        rest := rest - {s};
        sources := sources + [s];
      }
      SortedStrictly(sources);
      sources := Sorted(sources);
    }

    /** What holds between two dependencies of a manifest in progress. */
    ghost predicate Holds(root: Manifest, current: Option<Manifest>)
      reads this
    {
      && CacheIsTrue() && BoundByFirst(Now(), reg) && Traced(Now(), root, reg)
      && Selected(Now(), reg) && FromManifests(Now(), root, reg) && Complete(Now(), root, reg, current)
    }

    /** The inner loop: the dependencies of one manifest. */
    method AddDeps(m: Manifest, ghost root: Manifest) returns (err: Option<Error>)
      requires Holds(root, Some(m)) && Known(m, Now(), root, reg)
      modifies this
      ensures match Dependencies(old(Now()), m, 0, reg)
              case Ok(st) => err == None && Now() == st
              case Err(e) => err == Some(e)
      ensures err == None ==> Holds(root, None)
      ensures err == None ==>
                || (queue == old(queue) && Left(Now(), root, reg) == Left(old(Now()), root, reg))
                || Left(Now(), root, reg) < Left(old(Now()), root, reg)
      ensures err.Some? ==> FailsAt(err.value, root, reg)
    {
      hide ParseConstraint, Select, Require, BoundByFirst, Traced, FromManifests, IsSpent, StopsAt;
      ghost var before := Now();
      for i := 0 to |m.deps|
        invariant Holds(root, Some(m)) && Known(m, Now(), root, reg) && RecordedUpTo(Now(), m, i)
        invariant Dependencies(Now(), m, i, reg) == Dependencies(before, m, 0, reg)
        invariant Spent(before, root, reg) <= Spent(Now(), root, reg)
        invariant queue == before.queue || Spent(before, root, reg) < Spent(Now(), root, reg)
      {
        ghost var st := Now();
        err := AddDep(m.name, m.deps[i]);
        assert SelectedAt(st, reg, m.deps[i].source);
        if err.Some? {
          StopsExactly(err.value, st, m.name, m.deps[i], reg);
          return;
        }
        RequireKeepsTraced(st, m, m.deps[i], root, reg);
        QueueingSpends(st, m, m.deps[i], root, reg);
        RequireKeepsBound(st, m.name, m.deps[i], reg);
        RequireKeepsSelected(st, m.name, m.deps[i], reg);
        RequireKeepsFromManifests(st, m, m.deps[i], root, reg);
        RequireKeepsComplete(st, m, i, root, reg);
        RequireGrows(st, m.name, m.deps[i], reg);
        KnownGrows(m, st, Now(), root, reg);
      }
      SpendingShrinks(before, Now(), root, reg);
      return None;
    }

    /** resolveGraph: it ends, over every finite registry, in a fixpoint or with an error. */
    method ResolveGraph(root: Manifest) returns (err: Option<Error>)
      requires Now() == Start(root) && CacheIsTrue()
      modifies this
      ensures err == None ==> Resolved(Now(), root, reg) && BoundByFirst(Now(), reg) && Traced(Now(), root, reg)
      ensures err == None ==> queue == [] && exists n: nat :: Rounds(Start(root), n, reg) == Ok(Now())
      ensures err.Some? ==> FailsAt(err.value, root, reg) && exists n: nat :: Rounds(Start(root), n, reg) == Err(err.value)
    {
      hide Selected, FromManifests, BoundByFirst, Traced, Left, Complete, Dependencies, Require, Known, FailsAt, Resolved;
      ghost var n: nat := 0;
      StartHolds(root, reg);
      while |queue| > 0
        invariant Holds(root, None) && Rounds(Start(root), n, reg) == Ok(Now())
        decreases Left(Now(), root, reg), |queue|
      {
        ghost var before := Now();
        var m := queue[0];
        queue := queue[1..];
        Popped(before, Now(), m, root, reg);
        n := n + 1;
        assert Rounds(Start(root), n, reg) == Dependencies(Now(), m, 0, reg);
        err := AddDeps(m, root);
        if err.Some? { return; }
      }
      CompleteIsResolved(Now(), root, reg);
      return None;
    }
  }

  lemma CompleteIsResolved(st: State, root: Manifest, reg: Registry)
    requires Selected(st, reg) && FromManifests(st, root, reg) && Complete(st, root, reg, None) && st.queue == []
    ensures Resolved(st, root, reg)
  {
    forall s | s in st.sel && (s, st.sel[s]) in reg.manifests
      ensures RecordedUpTo(st, reg.manifests[(s, st.sel[s])], |reg.manifests[(s, st.sel[s])].deps|)
    {
      assert SelectedAt(st, reg, s);
      assert Handled(st, reg.manifests[(s, st.sel[s])]);
    }
  }

  lemma StartHolds(root: Manifest, reg: Registry)
    ensures Selected(Start(root), reg) && FromManifests(Start(root), root, reg) && Complete(Start(root), root, reg, None)
    ensures BoundByFirst(Start(root), reg) && Traced(Start(root), root, reg)
  {
    forall mod ensures BoundAt(Start(root), reg, mod) {}
  }

  lemma PoppedTraced(st: State, st': State, root: Manifest, reg: Registry)
    requires st.queue != [] && st' == st.(queue := st.queue[1..]) && Traced(st, root, reg) && Selected(st, reg)
    ensures Traced(st', root, reg)
  {
    hide Agreed, NamedByFirst, Select;
    forall k | k in st'.fetched && k in reg.manifests ensures Agreed(k, st', root, reg) { AgreedGrows(k, st, st', root, reg); }
    forall s | s in st'.reqs ensures NamedByFirst(s, st', root, reg) {
      assert SelectedAt(st, reg, s);
      assert NamedByFirst(s, st, root, reg);
      NamedPopped(s, st, st', root, reg);
    }
  }

  lemma NamedPopped(s: string, st: State, st': State, root: Manifest, reg: Registry)
    requires st' == st.(queue := st'.queue) && s in st.reqs && NamedByFirst(s, st, root, reg)
    ensures NamedByFirst(s, st', root, reg)
  {
    hide ParseConstraint;
    NameStays(s, st, st', root, reg);
  }

  /** Taking a manifest from the queue leaves everything but the queue alone. */
  lemma Popped(st: State, st': State, m: Manifest, root: Manifest, reg: Registry)
    requires st.queue != [] && m == st.queue[0] && st' == st.(queue := st.queue[1..])
    requires Selected(st, reg) && FromManifests(st, root, reg) && Complete(st, root, reg, None)
    ensures Selected(st', reg) && FromManifests(st', root, reg) && Known(m, st', root, reg)
    ensures Complete(st', root, reg, Some(m))
    ensures BoundByFirst(st, reg) ==> BoundByFirst(st', reg)
    ensures Traced(st, root, reg) ==> Traced(st', root, reg)
    ensures Left(st', root, reg) == Left(st, root, reg)
  {
    forall s ensures SelectedAt(st', reg, s) { assert SelectedAt(st, reg, s); }
    if BoundByFirst(st, reg) {
      forall mod ensures BoundAt(st', reg, mod) { assert BoundAt(st, reg, mod); }
    }
    if Traced(st, root, reg) { PoppedTraced(st, st', root, reg); }
    assert st.queue == [m] + st'.queue;
    forall n | n in st.queue ensures Known(n, st', root, reg) { KnownGrows(n, st, st', root, reg); }
    forall s, r | s in st'.reqs && r in st'.reqs[s] ensures Asked(s, r, st', root, reg) { AskedGrows(s, r, st, st', root, reg); }
    forall n | n != m && Handled(st, n) ensures Handled(st', n) {
      if n !in st.queue {
        forall j | 0 <= j < |n.deps| ensures Recorded(st', n.name, n.deps[j]) { assert Recorded(st, n.name, n.deps[j]); }
      }
    }
  }

  // ---------------------------------------------------------------- the order of the worklist

  /** The manifests of the versions fetched, in order. */
  function ManifestsOf(ks: seq<(string, Pick)>, reg: Registry): seq<Manifest> {
    if ks == [] then [] else
    var k := ks[|ks| - 1];
    ManifestsOf(ks[..|ks| - 1], reg) + if k in reg.manifests then [reg.manifests[k]] else []
  }

  /** After n manifests were taken, the rest of those fetched so far waits, in the order of the fetches. */
  ghost predicate Waits(st: State, root: Manifest, reg: Registry, n: nat) {
    n <= 1 + |ManifestsOf(st.fetched, reg)| && st.queue == ([root] + ManifestsOf(st.fetched, reg))[n..]
  }

  /** What one dependency does to the queue. */
  lemma RequireQueues(st: State, requirer: string, d: Dep, reg: Registry)
    requires SelectedAt(st, reg, d.source) && Require(st, requirer, d, reg).Ok?
    ensures var st' := Require(st, requirer, d, reg).value;
            || (st'.fetched == st.fetched && st'.queue == st.queue)
            || exists k :: && st'.fetched == st.fetched + [k]
                           && st'.queue == st.queue + if k in reg.manifests then [reg.manifests[k]] else []
  {
    hide ParseConstraint, Select, Bind;
    var st' := Require(st, requirer, d, reg).value;
    if st'.fetched != st.fetched {
      var k := (d.source, st'.sel[d.source]);
      assert st'.fetched == st.fetched + [k];
    }
  }

  lemma RequireWaits(st: State, requirer: string, d: Dep, root: Manifest, reg: Registry, n: nat)
    requires SelectedAt(st, reg, d.source) && Waits(st, root, reg, n) && Require(st, requirer, d, reg).Ok?
    ensures Waits(Require(st, requirer, d, reg).value, root, reg, n)
  {
    hide Require, SelectedAt;
    RequireQueues(st, requirer, d, reg);
    var st' := Require(st, requirer, d, reg).value;
    if st'.fetched != st.fetched || st'.queue != st.queue {
      var k :| st'.fetched == st.fetched + [k] && st'.queue == st.queue + if k in reg.manifests then [reg.manifests[k]] else [];
      assert st'.fetched[..|st.fetched|] == st.fetched;
      var added := if k in reg.manifests then [reg.manifests[k]] else [];
      assert ([root] + ManifestsOf(st'.fetched, reg))[n..] == ([root] + ManifestsOf(st.fetched, reg))[n..] + added;
    }
  }

  lemma {:induction false} DependenciesWait(st: State, m: Manifest, i: nat, root: Manifest, reg: Registry, n: nat)
    requires i <= |m.deps| && Selected(st, reg) && Waits(st, root, reg, n) && Dependencies(st, m, i, reg).Ok?
    ensures var st' := Dependencies(st, m, i, reg).value; Selected(st', reg) && Waits(st', root, reg, n)
    decreases |m.deps| - i
  {
    hide Require, Waits, SelectedAt;
    if i < |m.deps| {
      assert SelectedAt(st, reg, m.deps[i].source);
      RequireWaits(st, m.name, m.deps[i], root, reg, n);
      RequireKeepsSelected(st, m.name, m.deps[i], reg);
      DependenciesWait(Require(st, m.name, m.deps[i], reg).value, m, i + 1, root, reg, n);
    }
  }

  /** Manifests are taken in the order their versions were fetched: the root, then breadth first. */
  lemma {:induction false} RoundsInOrder(root: Manifest, reg: Registry, n: nat)
    requires Rounds(Start(root), n, reg).Ok?
    ensures var st := Rounds(Start(root), n, reg).value;
            && Selected(st, reg)
            && (Waits(st, root, reg, n) || (st.queue == [] && n > 1 + |ManifestsOf(st.fetched, reg)|))
    decreases n
  {
    hide SelectedAt, Dependencies;
    if n == 0 {
      StartHolds(root, reg);
    } else {
      RoundsInOrder(root, reg, n - 1);
      var st := Rounds(Start(root), n - 1, reg).value;
      if st.queue != [] {
        var popped := st.(queue := st.queue[1..]);
        var all := [root] + ManifestsOf(st.fetched, reg);
        assert all[n - 1..][1..] == all[n..];
        SelectedPopped(st, popped, reg);
        DependenciesWait(popped, st.queue[0], 0, root, reg, n);
      }
    }
  }

  lemma SelectedPopped(st: State, st': State, reg: Registry)
    requires st' == st.(queue := st'.queue) && Selected(st, reg)
    ensures Selected(st', reg)
  {
    forall s ensures SelectedAt(st', reg, s) { assert SelectedAt(st, reg, s); }
  }
}
