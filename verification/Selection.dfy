/** The version selected for one source (selectVersion, cmd/aril/getresolve.go). */
module Selection {
  import opened Wrappers
  import opened Strings
  import opened Versions
  import opened Constraints

  /** A released version, or a commit. The generator keeps either as text; ShowIsInjective. */
  datatype Pick = Tag(v: Semver) | Sha(commit: string)

  datatype SelectError = ShaConflict | VersionConflict(why: MvsError)

  lemma ShowIsInjective(v: Semver, w: Semver)
    requires v.InRange() && w.InRange() && '+' !in v.pre && '+' !in w.pre && Show(v) == Show(w)
    ensures v == w
  {
    ParseInvertsShow(v);
    ParseInvertsShow(w);
  }

  function Shas(rs: seq<Requirement>): seq<string> {
    if rs == [] then [] else
    var r := rs[|rs| - 1];
    Shas(rs[..|rs| - 1]) + if r.c.commit != "" then [r.c.commit] else []
  }

  /** The versions pinned with `=`; they are candidates besides the tags. */
  function Pins(rs: seq<Requirement>): seq<Semver> {
    if rs == [] then [] else
    var r := rs[|rs| - 1];
    Pins(rs[..|rs| - 1]) + if IsPin(r.c) then [r.c.comps[0].v] else []
  }

  predicate IsRange(c: Constraint) { c.commit == "" && !IsPin(c) }
  predicate HasRange(rs: seq<Requirement>) { exists r :: r in rs && IsRange(r.c) }
  predicate AllEqual(ss: seq<string>) { forall s :: s in ss ==> s == ss[0] }

  function Candidates(rs: seq<Requirement>, tags: seq<Semver>): seq<Semver> {
    Pins(rs) + if HasRange(rs) then tags else []
  }

  function Select(rs: seq<Requirement>, tags: seq<Semver>): Result<Pick, SelectError> {
    if Shas(rs) != [] then
      if HasRange(rs) || Pins(rs) != [] || !AllEqual(Shas(rs)) then Err(ShaConflict) else Ok(Sha(Shas(rs)[0]))
    else
      match Mvs(rs, Candidates(rs, tags)) case Ok(v) => Ok(Tag(v)) case Err(e) => Err(VersionConflict(e))
  }

  lemma OneMore(rs: seq<Requirement>, r: Requirement)
    ensures var more := rs + [r];
            && Shas(more) == Shas(rs) + (if r.c.commit != "" then [r.c.commit] else [])
            && Pins(more) == Pins(rs) + (if IsPin(r.c) then [r.c.comps[0].v] else [])
            && (HasRange(more) <==> HasRange(rs) || IsRange(r.c))
            && (forall v :: AdmittedByAll(more, v) <==> AdmittedByAll(rs, v) && Admits(r.c, v))
  {
    var more := rs + [r];
    assert more[..|more| - 1] == rs;
    if HasRange(rs) {
      var q :| q in rs && IsRange(q.c);
      assert q in more;
    }
    if IsRange(r.c) { assert r in more; }
    forall v ensures AdmittedByAll(more, v) <==> AdmittedByAll(rs, v) && Admits(r.c, v) {
      if AdmittedByAll(more, v) {
        assert r in more;
        forall q | q in rs ensures Admits(q.c, v) { assert q in more; }
      }
    }
  }

  /** selectVersion. */
  method SelectVersion(rs: seq<Requirement>, tags: seq<Semver>) returns (r: Result<Pick, SelectError>)
    ensures r == Select(rs, tags)
  {
    var shas, hasRange, exactCands: seq<Semver> := [], false, [];
    for i := 0 to |rs|
      invariant shas == Shas(rs[..i]) && exactCands == Pins(rs[..i]) && (hasRange <==> HasRange(rs[..i]))
    {
      assert rs[..i + 1] == rs[..i] + [rs[i]];
      OneMore(rs[..i], rs[i]);
      var c := rs[i].c;
      if c.commit != "" {
        shas := shas + [c.commit];
        continue;
      }
      if IsPin(c) { exactCands := exactCands + [c.comps[0].v]; } else { hasRange := true; }
    }
    assert rs[..|rs|] == rs;
    if |shas| > 0 {
      if hasRange || |exactCands| > 0 || !AllEqual(shas) { return Err(ShaConflict); }
      return Ok(Sha(shas[0]));
    }
    var v := MvsSelect(rs, exactCands + if hasRange then tags else []);
    return match v case Ok(w) => Ok(Tag(w)) case Err(e) => Err(VersionConflict(e));
  }

  // ---------------------------------------------------------------- what a selection meets

  /** The selection satisfies a requirement: the commit pinned, or an admitted version. */
  predicate Meets(p: Pick, c: Constraint) {
    match p
    case Sha(commit) => c.commit == commit
    case Tag(v) => Admits(c, v)
  }

  lemma {:induction false} KindsOf(rs: seq<Requirement>)
    ensures forall r :: r in rs && r.c.commit != "" ==> r.c.commit in Shas(rs)
    ensures forall r :: r in rs && IsPin(r.c) ==> r.c.comps[0].v in Pins(rs)
    ensures forall v :: v in Pins(rs) ==> exists r :: r in rs && IsPin(r.c) && r.c.comps[0].v == v
    ensures forall s :: s in Shas(rs) ==> s != ""
    decreases |rs|
  {
    if rs != [] {
      var rest, last := rs[..|rs| - 1], rs[|rs| - 1];
      assert rs == rest + [last];
      KindsOf(rest);
    }
  }

  /** A successful selection meets every requirement; a version selected from candidates is
      the least of those that do. */
  lemma SelectionMeetsAll(rs: seq<Requirement>, tags: seq<Semver>)
    requires rs != [] && Select(rs, tags).Ok?
    ensures forall r :: r in rs ==> Meets(Select(rs, tags).value, r.c)
    ensures var p := Select(rs, tags).value;
            p.Tag? && Candidates(rs, tags) != [] ==> IsLeast(p.v, Candidates(rs, tags), rs)
  {
    KindsOf(rs);
    var p := Select(rs, tags).value;
    if p.Sha? {
      assert forall r :: r in rs ==> IsRange(r.c) || IsPin(r.c) || r.c.commit in Shas(rs);
    } else if Candidates(rs, tags) != [] {
      SelectsLeast(rs, Candidates(rs, tags));
    }
  }

  // ---------------------------------------------------------------- what is selected

  /** A candidate is a version some requirement pins with `=`, or a tag, once some requirement is a range. */
  ghost predicate IsCandidate(v: Semver, rs: seq<Requirement>, tags: seq<Semver>) {
    || (exists r :: r in rs && r.c.commit == "" && r.c.comps == [Comparator(Exactly, v)])
    || (v in tags && exists r :: r in rs && r.c.commit == "" && !(|r.c.comps| == 1 && r.c.comps[0].op == Exactly))
  }

  lemma {:induction false} PinsExactly(rs: seq<Requirement>, v: Semver)
    ensures v in Pins(rs) <==> exists r :: r in rs && r.c.commit == "" && r.c.comps == [Comparator(Exactly, v)]
    decreases |rs|
  {
    if rs != [] {
      var rest, last := rs[..|rs| - 1], rs[|rs| - 1];
      assert rs == rest + [last];
      PinsExactly(rest, v);
      if last.c.comps == [Comparator(Exactly, v)] && last.c.commit == "" { assert IsPin(last.c) && last in rs; }
      if IsPin(last.c) { assert last.c.comps == [last.c.comps[0]]; }
    }
  }

  lemma CandidatesExactly(rs: seq<Requirement>, tags: seq<Semver>, v: Semver)
    ensures v in Candidates(rs, tags) <==> IsCandidate(v, rs, tags)
  {
    PinsExactly(rs, v);
    if HasRange(rs) {
      var r :| r in rs && IsRange(r.c);
      assert r.c.commit == "" && !(|r.c.comps| == 1 && r.c.comps[0].op == Exactly);
    }
    if r :| r in rs && r.c.commit == "" && !(|r.c.comps| == 1 && r.c.comps[0].op == Exactly) { assert IsRange(r.c); }
  }

  lemma {:induction false} ShasExactly(rs: seq<Requirement>)
    ensures forall s :: s in Shas(rs) <==> s != "" && exists r :: r in rs && r.c.commit == s
    ensures Shas(rs) == [] <==> forall r :: r in rs ==> r.c.commit == ""
    decreases |rs|
  {
    if rs != [] {
      var rest, last := rs[..|rs| - 1], rs[|rs| - 1];
      assert rs == rest + [last];
      ShasExactly(rest);
      assert forall r :: r in rs <==> r in rest || r == last;
    }
  }

  /** A commit is selected exactly when it is all that is required. Commits conflict with one another and
      with everything else. */
  lemma CommitsExactly(rs: seq<Requirement>, tags: seq<Semver>)
    requires rs != []
    ensures forall c :: Select(rs, tags) == Ok(Sha(c)) <==> c != "" && forall r :: r in rs ==> r.c.commit == c
    ensures Select(rs, tags) == Err(ShaConflict) <==> exists r, q :: r in rs && q in rs && r.c.commit != "" && q.c.commit != r.c.commit
  {
    hide Mvs, Candidates;
    ShasExactly(rs);
    var shas := Shas(rs);
    assert rs[0] in rs;
    if shas != [] {
      assert shas[0] in shas;
      var r :| r in rs && r.c.commit == shas[0];
      OnlyCommits(rs);
      if AllEqual(shas) && !HasRange(rs) && Pins(rs) == [] {
        forall q | q in rs ensures q.c.commit == shas[0] { assert q.c.commit in shas; }
      } else if !AllEqual(shas) {
        var s :| s in shas && s != shas[0];
        var q :| q in rs && q.c.commit == s;
      }
    }
  }

  /** Ranges and pins are what is no commit. */
  lemma OnlyCommits(rs: seq<Requirement>)
    ensures HasRange(rs) || Pins(rs) != [] <==> exists r :: r in rs && r.c.commit == ""
  {
    KindsOf(rs);
    if r :| r in rs && r.c.commit == "" {
      if !IsPin(r.c) { assert IsRange(r.c); }
    }
    if Pins(rs) != [] { assert Pins(rs)[0] in Pins(rs); }
  }

  /** Otherwise the least candidate that meets every requirement is selected, and there is a conflict
      exactly when none does. Without any candidate it is the greatest lower bound required, if that
      meets every requirement. */
  lemma SelectsExactly(rs: seq<Requirement>, tags: seq<Semver>)
    requires rs != [] && forall r :: r in rs ==> r.c.commit == ""
    ensures (exists v :: IsCandidate(v, rs, tags)) ==>
              var p := Select(rs, tags);
              && (p.Ok? ==> p.value.Tag? && IsCandidate(p.value.v, rs, tags) && AdmittedByAll(rs, p.value.v)
                            && forall w :: IsCandidate(w, rs, tags) && AdmittedByAll(rs, w) ==> Compare(p.value.v, w) <= 0)
              && (p.Err? ==> p.error == VersionConflict(Conflict))
              && (p.Err? <==> !exists w :: IsCandidate(w, rs, tags) && AdmittedByAll(rs, w))
    ensures (!exists v :: IsCandidate(v, rs, tags)) ==>
              match MaxFloorOf(rs)
              case None => Select(rs, tags) == Err(VersionConflict(NoLowerBound))
              case Some(floor) =>
                Select(rs, tags) == if AdmittedByAll(rs, floor) then Ok(Tag(floor)) else Err(VersionConflict(Conflict))
  {
    hide AdmittedByAll, IsCandidate, Compare;
    ShasExactly(rs);
    var cs := Candidates(rs, tags);
    forall v ensures v in cs <==> IsCandidate(v, rs, tags) { CandidatesExactly(rs, tags, v); }
    if cs != [] {
      assert cs[0] in cs;
      SelectsLeast(rs, cs);
    }
  }

  // ---------------------------------------------------------------- when a selection moves

  lemma {:induction false} LowestFromConcat(best: Option<Semver>, a: seq<Semver>, b: seq<Semver>, rs: seq<Requirement>)
    ensures LowestFrom(best, a + b, rs) == LowestFrom(LowestFrom(best, a, rs), b, rs)
    decreases |a|
  {
    if a == [] {
      assert a + b == b;
    } else {
      assert (a + b)[1..] == a[1..] + b;
      var c := a[0];
      var next := if AdmittedByAll(rs, c) && (best.None? || Compare(c, best.value) < 0) then Some(c) else best;
      LowestFromConcat(next, a[1..], b, rs);
    }
  }

  lemma {:induction false} LowestFromSame(best: Option<Semver>, cs: seq<Semver>, rs: seq<Requirement>, rs': seq<Requirement>)
    requires forall c :: c in cs ==> (AdmittedByAll(rs, c) <==> AdmittedByAll(rs', c))
    ensures LowestFrom(best, cs, rs) == LowestFrom(best, cs, rs')
    decreases |cs|
  {
    if cs != [] {
      var c := cs[0];
      var next := if AdmittedByAll(rs, c) && (best.None? || Compare(c, best.value) < 0) then Some(c) else best;
      LowestFromSame(next, cs[1..], rs, rs');
    }
  }

  /** Candidates that are not below the choice do not change it. */
  lemma {:induction false} NothingBetter(best: Option<Semver>, cs: seq<Semver>, rs: seq<Requirement>)
    requires forall c :: c in cs && AdmittedByAll(rs, c) ==> best.Some? && Compare(c, best.value) >= 0
    ensures LowestFrom(best, cs, rs) == best
    decreases |cs|
  {
    if cs != [] {
      assert cs[0] in cs;
      NothingBetter(best, cs[1..], rs);
    }
  }

  lemma AboveOwnFloor(c: Constraint, v: Semver)
    requires Admits(c, v)
    ensures FloorOf(c.comps).Some? ==> Compare(FloorOf(c.comps).value, v) <= 0
  {
    FloorIsGreatest(c.comps);
    if FloorOf(c.comps).Some? { CompareSymmetric(v, FloorOf(c.comps).value); }
  }

  /** Over the pins, a repeated pin changes nothing. */
  lemma StaysAmongPins(rs: seq<Requirement>, r: Requirement)
    requires IsPin(r.c) ==> r.c.comps[0].v in Pins(rs)
    ensures var again := if IsPin(r.c) then [r.c.comps[0].v] else [];
            LowestFrom(Lowest(Pins(rs), rs + [r]), again, rs + [r]) == Lowest(Pins(rs), rs + [r])
  {
    var again := if IsPin(r.c) then [r.c.comps[0].v] else [];
    var best := Lowest(Pins(rs), rs + [r]);
    LowestIsLeast(Pins(rs), rs + [r]);
    forall c | c in again && AdmittedByAll(rs + [r], c) ensures best.Some? && Compare(c, best.value) >= 0 {
      CompareSymmetric(c, best.value);
    }
    NothingBetter(best, again, rs + [r]);
  }

  lemma TiesWithPin(rs: seq<Requirement>, pin: Semver, v: Semver)
    requires pin in Pins(rs) && AdmittedByAll(rs, v)
    ensures Compare(v, pin) == 0
  {
    KindsOf(rs);
    var q :| q in rs && IsPin(q.c) && q.c.comps[0].v == pin;
    assert Admits(q.c, v) && Holds(q.c.comps[0], v);
  }

  /** When every requirement so far is a pin, an admitted tag ties with the pin chosen. */
  lemma TagsTieWithPins(rs: seq<Requirement>, r: Requirement, tags: seq<Semver>)
    requires Lowest(Pins(rs), rs + [r]).Some?
    ensures LowestFrom(Lowest(Pins(rs), rs + [r]), tags, rs + [r]) == Lowest(Pins(rs), rs + [r])
  {
    OneMore(rs, r);
    var best := Lowest(Pins(rs), rs + [r]);
    LowestIsLeast(Pins(rs), rs + [r]);
    forall c | c in tags && AdmittedByAll(rs + [r], c) ensures Compare(c, best.value) >= 0 {
      TiesWithPin(rs, best.value, c);
    }
    NothingBetter(best, tags, rs + [r]);
  }

  /** A requirement that pins nothing new and shuts out no version that was still admitted. */
  predicate AddsNothing(rs: seq<Requirement>, r: Requirement, tags: seq<Semver>) {
    && (IsPin(r.c) ==> r.c.comps[0].v in Pins(rs))
    && (forall v :: v in Candidates(rs, tags) && AdmittedByAll(rs, v) ==> Admits(r.c, v))
  }

  lemma CandidatesOf(rs: seq<Requirement>, r: Requirement, tags: seq<Semver>)
    ensures var again := if IsPin(r.c) then [r.c.comps[0].v] else [];
            Candidates(rs + [r], tags) == Pins(rs) + (again + if HasRange(rs + [r]) then tags else [])
  {
    OneMore(rs, r);
    Associative(Pins(rs), if IsPin(r.c) then [r.c.comps[0].v] else [], if HasRange(rs + [r]) then tags else []);
  }

  lemma Associative(a: seq<Semver>, b: seq<Semver>, c: seq<Semver>)
    ensures (a + b) + c == a + (b + c)
  {
  }

  lemma SameAdmitted(rs: seq<Requirement>, r: Requirement, cs: seq<Semver>)
    requires forall v :: v in cs && AdmittedByAll(rs, v) ==> Admits(r.c, v)
    ensures Lowest(cs, rs + [r]) == Lowest(cs, rs)
  {
    OneMore(rs, r);
    LowestFromSame(None, cs, rs, rs + [r]);
  }

  lemma StaysAmongCandidates(rs: seq<Requirement>, r: Requirement, tags: seq<Semver>)
    requires Lowest(Candidates(rs, tags), rs).Some? && AddsNothing(rs, r, tags)
    ensures Lowest(Candidates(rs + [r], tags), rs + [r]) == Lowest(Candidates(rs, tags), rs)
  {
    var pins, old_, new_ := Pins(rs), if HasRange(rs) then tags else [], if HasRange(rs + [r]) then tags else [];
    CandidatesOf(rs, r, tags);
    OneMore(rs, r);
    SameAdmitted(rs, r, pins + old_);
    StaysAmongPins(rs, r);
    if !HasRange(rs) {
      assert pins + old_ == pins;
      TagsTieWithPins(rs, r, new_);
    }
    Unmoved(pins, if IsPin(r.c) then [r.c.comps[0].v] else [], old_, new_, rs + [r]);
  }

  lemma Unmoved(pins: seq<Semver>, again: seq<Semver>, old_: seq<Semver>, new_: seq<Semver>, rs: seq<Requirement>)
    requires LowestFrom(Lowest(pins, rs), again, rs) == Lowest(pins, rs)
    requires new_ == old_ || (old_ == [] && LowestFrom(Lowest(pins, rs), new_, rs) == Lowest(pins, rs))
    ensures Lowest(pins + (again + new_), rs) == Lowest(pins + old_, rs)
  {
    LowestFromConcat(None, pins, old_, rs);
    LowestFromConcat(None, pins, again + new_, rs);
    LowestFromConcat(Lowest(pins, rs), again, new_, rs);
  }

  /** Without any candidate, the greatest floor stays when it is admitted. */
  lemma FloorStays(rs: seq<Requirement>, r: Requirement)
    requires MaxFloorOf(rs).Some? && Admits(r.c, MaxFloorOf(rs).value)
    ensures MaxFloorOf(rs + [r]) == MaxFloorOf(rs)
  {
    var more := rs + [r];
    assert more[..|more| - 1] == rs;
    AboveOwnFloor(r.c, MaxFloorOf(rs).value);
  }

  lemma RangeOrCandidates(rs: seq<Requirement>, tags: seq<Semver>)
    requires rs != [] && Shas(rs) == []
    ensures HasRange(rs) || Pins(rs) != []
  {
    KindsOf(rs);
    assert rs[0] in rs;
    assert IsRange(rs[0].c) || IsPin(rs[0].c);
  }

  lemma MvsStays(rs: seq<Requirement>, r: Requirement, tags: seq<Semver>)
    requires HasRange(rs) || Pins(rs) != []
    requires AddsNothing(rs, r, tags) && r.c.commit == ""
    requires Mvs(rs, Candidates(rs, tags)).Ok? && Admits(r.c, Mvs(rs, Candidates(rs, tags)).value)
    ensures Mvs(rs + [r], Candidates(rs + [r], tags)) == Mvs(rs, Candidates(rs, tags))
  {
    OneMore(rs, r);
    if Candidates(rs, tags) != [] {
      StaysAmongCandidates(rs, r, tags);
    } else {
      FloorStays(rs, r);
    }
  }

  /** Such a requirement leaves the selection as it is. */
  lemma SelectionStays(rs: seq<Requirement>, r: Requirement, tags: seq<Semver>)
    requires rs != [] && Select(rs, tags).Ok? && Select(rs + [r], tags).Ok?
    requires AddsNothing(rs, r, tags)
    requires Select(rs, tags).value.Tag? ==> Admits(r.c, Select(rs, tags).value.v)
    ensures Select(rs + [r], tags) == Select(rs, tags)
  {
    OneMore(rs, r);
    if Shas(rs) == [] {
      RangeOrCandidates(rs, tags);
      MvsStays(rs, r, tags);
    } else {
      assert Shas(rs + [r])[0] == Shas(rs)[0];
    }
  }

  // ---------------------------------------------------------------- when a selection falls

  /** The pin of r is admitted and no pin before it is: it becomes the selection. */
  lemma PinIsSelected(rs: seq<Requirement>, r: Requirement, tags: seq<Semver>)
    requires IsPin(r.c) && AdmittedByAll(rs, r.c.comps[0].v)
    requires forall q :: q in Pins(rs) ==> !AdmittedByAll(rs + [r], q)
    ensures Mvs(rs + [r], Candidates(rs + [r], tags)) == Ok(r.c.comps[0].v)
  {
    hide Compare, Admits, AdmittedByAll, HasRange;
    var more, p, rest := rs + [r], r.c.comps[0].v, if HasRange(rs + [r]) then tags else [];
    OneMore(rs, r);
    CandidatesOf(rs, r, tags);
    AdmittedByPin(r.c, p);
    LowestFromConcat(None, Pins(rs), [p] + rest, more);
    LowestIsLeast(Pins(rs), more);
    assert ([p] + rest)[0] == p && ([p] + rest)[1..] == rest;
    forall c | c in rest && AdmittedByAll(more, c) ensures Compare(c, p) >= 0 { AdmittedByPin(r.c, c); }
    NothingBetter(Some(p), rest, more);
  }

  lemma AdmittedByPin(c: Constraint, v: Semver)
    requires IsPin(c)
    ensures Admits(c, v) <==> Compare(v, c.comps[0].v) == 0
    ensures v == c.comps[0].v ==> Admits(c, v)
  {
    CompareSymmetric(v, v);
    if Admits(c, v) { assert Holds(c.comps[0], v); }
  }

  /** A requirement lowers the selection exactly when it pins an admitted version below it, and no
      version pinned before is admitted any more. */
  lemma FallsExactly(rs: seq<Requirement>, r: Requirement, tags: seq<Semver>)
    requires rs != [] && Select(rs, tags).Ok? && Select(rs + [r], tags).Ok?
    requires Select(rs, tags).value.Tag? && Select(rs + [r], tags).value.Tag?
    ensures Compare(Select(rs + [r], tags).value.v, Select(rs, tags).value.v) < 0 <==>
            && IsPin(r.c) && Compare(r.c.comps[0].v, Select(rs, tags).value.v) < 0 && AdmittedByAll(rs, r.c.comps[0].v)
            && forall q :: q in Pins(rs) ==> !AdmittedByAll(rs + [r], q)
  {
    var v, v' := Select(rs, tags).value.v, Select(rs + [r], tags).value.v;
    if IsPin(r.c) && AdmittedByAll(rs, r.c.comps[0].v) && (forall q :: q in Pins(rs) ==> !AdmittedByAll(rs + [r], q)) {
      PinIsSelected(rs, r, tags);
    }
    if Compare(v', v) < 0 {
      FallsToPin(rs, r, tags);
    }
  }

  /** What a selection falls to is a candidate that was none before. */
  lemma FallsToNew(rs: seq<Requirement>, r: Requirement, tags: seq<Semver>)
    requires rs != [] && Select(rs, tags).Ok? && Select(rs + [r], tags).Ok?
    requires Select(rs, tags).value.Tag? && Select(rs + [r], tags).value.Tag?
    requires Compare(Select(rs + [r], tags).value.v, Select(rs, tags).value.v) < 0
    ensures var v' := Select(rs + [r], tags).value.v;
            && v' in Candidates(rs + [r], tags) && AdmittedByAll(rs, v') && Admits(r.c, v')
            && v' !in Candidates(rs, tags) && Candidates(rs, tags) != []
  {
    hide Compare, Admits;
    var more := rs + [r];
    var v' := Select(more, tags).value.v;
    OneMore(rs, r);
    MeetsAll(more, tags);
    NotAmongOld(rs, v', tags);
    CandidatesOf(rs, r, tags);
    assert Candidates(more, tags) != [];
    SelectsLeast(more, Candidates(more, tags));
  }

  lemma MeetsAll(rs: seq<Requirement>, tags: seq<Semver>)
    requires rs != [] && Select(rs, tags).Ok? && Select(rs, tags).value.Tag?
    ensures AdmittedByAll(rs, Select(rs, tags).value.v)
  {
    SelectionMeetsAll(rs, tags);
    forall r | r in rs ensures Admits(r.c, Select(rs, tags).value.v) { assert Meets(Select(rs, tags).value, r.c); }
  }

  /** It is the new pin. */
  lemma FallsToPin(rs: seq<Requirement>, r: Requirement, tags: seq<Semver>)
    requires rs != [] && Select(rs, tags).Ok? && Select(rs + [r], tags).Ok?
    requires Select(rs, tags).value.Tag? && Select(rs + [r], tags).value.Tag?
    requires Compare(Select(rs + [r], tags).value.v, Select(rs, tags).value.v) < 0
    ensures IsPin(r.c) && Select(rs + [r], tags).value.v == r.c.comps[0].v && AdmittedByAll(rs, r.c.comps[0].v)
    ensures forall q :: q in Pins(rs) ==> !AdmittedByAll(rs + [r], q)
  {
    hide Compare, Admits, Mvs;
    var v, v' := Select(rs, tags).value.v, Select(rs + [r], tags).value.v;
    FallsToNew(rs, r, tags);
    CandidatesOf(rs, r, tags);
    OneMore(rs, r);
    if IsPin(r.c) {
      PinsStayAbove(rs, r, tags);
    } else {
      SelectionMeetsAll(rs, tags);
      TiesWithPin(rs, v, v');
      CompareSymmetric(v, v');
    }
  }

  /** What is below a selection and admitted is no candidate. */
  lemma NotAmongOld(rs: seq<Requirement>, u: Semver, tags: seq<Semver>)
    requires rs != [] && Select(rs, tags).Ok? && Select(rs, tags).value.Tag?
    requires AdmittedByAll(rs, u) && Compare(u, Select(rs, tags).value.v) < 0
    ensures u !in Candidates(rs, tags) && Candidates(rs, tags) != []
  {
    var v := Select(rs, tags).value.v;
    CompareSymmetric(u, v);
    if Candidates(rs, tags) == [] {
      AdmittedIsAboveFloor(rs, u);
    } else {
      SelectsLeast(rs, Candidates(rs, tags));
    }
  }

  /** If a pin were still admitted, it or one before it would have been selected. */
  lemma PinsStayAbove(rs: seq<Requirement>, r: Requirement, tags: seq<Semver>)
    requires rs != [] && Select(rs, tags).Ok? && Select(rs + [r], tags).Ok? && IsPin(r.c)
    requires Select(rs, tags).value.Tag? && Select(rs + [r], tags).value.Tag?
    requires Select(rs + [r], tags).value.v !in Candidates(rs, tags)
    ensures forall q :: q in Pins(rs) ==> !AdmittedByAll(rs + [r], q)
  {
    var more, p, rest := rs + [r], r.c.comps[0].v, if HasRange(rs + [r]) then tags else [];
    OneMore(rs, r);
    CandidatesOf(rs, r, tags);
    LowestIsLeast(Pins(rs), more);
    var best := Lowest(Pins(rs), more);
    if best.Some? {
      var q := best.value;
      LowestFromConcat(None, Pins(rs), [p] + rest, more);
      assert Holds(r.c.comps[0], q);
      CompareSymmetric(p, q);
      assert ([p] + rest)[1..] == rest;
      LowestFromIsLeast(q, rest, more);
    }
  }

  /** Released pins never lower a selection made over the tags. */
  lemma ReleasedPinsNeverLower(rs: seq<Requirement>, r: Requirement, tags: seq<Semver>)
    requires rs != [] && Select(rs, tags).Ok? && Select(rs + [r], tags).Ok?
    requires Select(rs, tags).value.Tag? && Select(rs + [r], tags).value.Tag?
    requires HasRange(rs) && tags != [] && (IsPin(r.c) ==> r.c.comps[0].v in tags)
    ensures Compare(Select(rs, tags).value.v, Select(rs + [r], tags).value.v) <= 0
  {
    OneMore(rs, r);
    var more := rs + [r];
    SelectsLeast(rs, Candidates(rs, tags));
    SelectsLeast(more, Candidates(more, tags));
    assert Select(more, tags).value.v in Candidates(rs, tags);
  }

  /** Nothing but an unreleased pin lowers a selection. */
  lemma NeverLowers(rs: seq<Requirement>, r: Requirement, tags: seq<Semver>)
    requires rs != [] && Select(rs, tags).Ok? && Select(rs + [r], tags).Ok?
    requires Select(rs, tags).value.Tag? && Select(rs + [r], tags).value.Tag?
    requires IsPin(r.c) && HasRange(rs) ==> r.c.comps[0].v in tags
    ensures Compare(Select(rs, tags).value.v, Select(rs + [r], tags).value.v) <= 0
  {
    OneMore(rs, r);
    RangeOrCandidates(rs, tags);
    var v, v' := Select(rs, tags).value.v, Select(rs + [r], tags).value.v;
    CompareSymmetric(v, v');
    if Compare(v', v) < 0 {
      FallsToPin(rs, r, tags);
      NotAmongOld(rs, v', tags);
      if !HasRange(rs) {
        SelectsLeast(rs, Candidates(rs, tags));
        TiesWithPin(rs, v, v');
      }
    }
  }

  /** Tags [1.1.0] under a floor of 1.0.0: a later `=1.0.5`, which is no tag, moves 1.1.0 down. */
  lemma UnreleasedPinLowers()
    ensures var low, pin, tag := Semver(1, 0, 0, ""), Semver(1, 0, 5, ""), Semver(1, 1, 0, "");
            var range := Requirement("", Constraint("", [Comparator(AtLeast, low)], ""));
            var exact := Requirement("", Constraint("", [Comparator(Exactly, pin)], ""));
            && Select([range], [tag]) == Ok(Tag(tag))
            && Select([range] + [exact], [tag]) == Ok(Tag(pin))
  {
    var low, pin, tag := Semver(1, 0, 0, ""), Semver(1, 0, 5, ""), Semver(1, 1, 0, "");
    var range := Requirement("", Constraint("", [Comparator(AtLeast, low)], ""));
    var exact := Requirement("", Constraint("", [Comparator(Exactly, pin)], ""));
    var rs: seq<Requirement> := [];
    assert rs + [range] == [range];
    OneMore(rs, range);
    assert IsRange(range.c) && Candidates([range], [tag]) == [tag];
    assert Admits(range.c, tag) && Admits(range.c, pin) && Admits(exact.c, pin) && !Admits(exact.c, tag) by {
      assert Holds(exact.c.comps[0], pin) && !Holds(exact.c.comps[0], tag);
    }
    assert AdmittedByAll([range], tag);
    assert [tag][1..] == [];
    OneMore([range], exact);
    assert Candidates([range] + [exact], [tag]) == [pin, tag];
    assert [pin, tag][1..] == [tag];
    assert AdmittedByAll([range] + [exact], pin) && !AdmittedByAll([range] + [exact], tag);
    assert LowestFrom(Some(pin), [tag], [range] + [exact]) == Some(pin);
  }
}
