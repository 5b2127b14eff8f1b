/** Version constraints and minimal version selection (cmd/aril/version.go). */
module Constraints {
  import opened Wrappers
  import opened Strings
  import opened Versions

  // ---------------------------------------------------------------- constraints

  datatype Op = AtLeast | Above | AtMost | Below | Exactly
  datatype Comparator = Comparator(op: Op, v: Semver)

  /** `commit` is a full SHA, or empty; no comparators admit every version. */
  datatype Constraint = Constraint(text: string, comps: seq<Comparator>, commit: string)
  datatype Requirement = Requirement(requirer: string, c: Constraint)

  predicate Holds(cm: Comparator, v: Semver) {
    var c := Compare(v, cm.v);
    match cm.op
    case AtLeast => c >= 0
    case Above => c > 0
    case AtMost => c <= 0
    case Below => c < 0
    case Exactly => c == 0
  }

  predicate Admits(c: Constraint, v: Semver) {
    c.commit == "" && forall cm :: cm in c.comps ==> Holds(cm, v)
  }

  predicate AdmittedByAll(reqs: seq<Requirement>, v: Semver) { forall r :: r in reqs ==> Admits(r.c, v) }

  /** exactPin, as the version or the SHA pinned. */
  predicate IsPin(c: Constraint) { c.commit == "" && |c.comps| == 1 && c.comps[0].op.Exactly? }

  predicate BoundsBelow(cm: Comparator) { cm.op.AtLeast? || cm.op.Above? || cm.op.Exactly? }

  /** floor: the greatest of the lower bounds. */
  method Floor(c: Constraint) returns (lo: Option<Semver>)
    ensures lo.None? <==> !exists cm :: cm in c.comps && BoundsBelow(cm)
    ensures lo.Some? ==> exists cm :: cm in c.comps && BoundsBelow(cm) && cm.v == lo.value
    ensures lo.Some? ==> forall cm :: cm in c.comps && BoundsBelow(cm) ==> Compare(lo.value, cm.v) >= 0
    ensures lo == FloorOf(c.comps)
  {
    lo := None;
    for i := 0 to |c.comps|
      invariant lo == FloorOf(c.comps[..i])
    {
      assert c.comps[..i + 1] == c.comps[..i] + [c.comps[i]];
      var cm := c.comps[i];
      if BoundsBelow(cm) {
        if lo.None? || Compare(cm.v, lo.value) > 0 { lo := Some(cm.v); }
      }
    }
    assert c.comps[..|c.comps|] == c.comps;
    FloorIsGreatest(c.comps);
  }

  function FloorOf(comps: seq<Comparator>): Option<Semver> {
    if comps == [] then None else
    var lo, cm := FloorOf(comps[..|comps| - 1]), comps[|comps| - 1];
    if BoundsBelow(cm) && (lo.None? || Compare(cm.v, lo.value) > 0) then Some(cm.v) else lo
  }

  lemma {:induction false} FloorIsGreatest(comps: seq<Comparator>)
    ensures FloorOf(comps).None? <==> !exists cm :: cm in comps && BoundsBelow(cm)
    ensures FloorOf(comps).Some? ==> exists cm :: cm in comps && BoundsBelow(cm) && cm.v == FloorOf(comps).value
    ensures FloorOf(comps).Some? ==> forall cm :: cm in comps && BoundsBelow(cm) ==> Compare(FloorOf(comps).value, cm.v) >= 0
  {
    if comps != [] {
      var rest, last := comps[..|comps| - 1], comps[|comps| - 1];
      FloorIsGreatest(rest);
      assert comps == rest + [last];
      CompareSymmetric(last.v, last.v);
      var lo, was := FloorOf(comps), FloorOf(rest);
      if lo.Some? && was.Some? {
        CompareSymmetric(lo.value, was.value);
        forall cm | cm in comps && BoundsBelow(cm) ensures Compare(lo.value, cm.v) >= 0 {
          CompareSymmetric(lo.value, cm.v);
          CompareSymmetric(was.value, cm.v);
          if cm in rest && lo != was && Compare(lo.value, cm.v) < 0 { StrictlyTransitive(was.value, lo.value, cm.v); }
        }
      }
    }
  }

  // ---------------------------------------------------------------- choosing a candidate

  /** lowestSatisfying, from a best candidate so far. */
  function LowestFrom(best: Option<Semver>, candidates: seq<Semver>, reqs: seq<Requirement>): Option<Semver>
    decreases |candidates|
  {
    if candidates == [] then best else
    var c := candidates[0];
    var better := AdmittedByAll(reqs, c) && (best.None? || Compare(c, best.value) < 0);
    LowestFrom(if better then Some(c) else best, candidates[1..], reqs)
  }

  function Lowest(candidates: seq<Semver>, reqs: seq<Requirement>): Option<Semver> { LowestFrom(None, candidates, reqs) }

  /** v is a candidate every requirement admits, and no such candidate is below it. */
  predicate IsLeast(v: Semver, candidates: seq<Semver>, reqs: seq<Requirement>) {
    v in candidates && AdmittedByAll(reqs, v) && forall c :: c in candidates && AdmittedByAll(reqs, c) ==> Compare(v, c) <= 0
  }

  lemma {:induction false} LowestFromIsLeast(best: Semver, candidates: seq<Semver>, reqs: seq<Requirement>)
    requires AdmittedByAll(reqs, best)
    ensures var r := LowestFrom(Some(best), candidates, reqs);
            && r.Some? && IsLeast(r.value, [best] + candidates, reqs)
            && (r.value == best || Compare(r.value, best) < 0)
    decreases |candidates|
  {
    CompareSymmetric(best, best);
    if candidates != [] {
      var c := candidates[0];
      CompareSymmetric(c, best);
      var next := if AdmittedByAll(reqs, c) && Compare(c, best) < 0 then c else best;
      LowestFromIsLeast(next, candidates[1..], reqs);
      var v := LowestFrom(Some(next), candidates[1..], reqs).value;
      CompareSymmetric(v, best);
      CompareSymmetric(v, c);
      if Compare(v, next) < 0 && next == c && c != best { StrictlyTransitive(v, c, best); }
      if v != best && next == best && Compare(c, v) < 0 { StrictlyTransitive(c, v, best); }
      assert candidates == [c] + candidates[1..];
    }
  }

  /** The chosen candidate is least, and there is one unless no candidate is admitted by all. */
  lemma {:induction false} LowestIsLeast(candidates: seq<Semver>, reqs: seq<Requirement>)
    ensures var r := Lowest(candidates, reqs);
            && (r.Some? ==> IsLeast(r.value, candidates, reqs))
            && (r.None? <==> forall c :: c in candidates ==> !AdmittedByAll(reqs, c))
    decreases |candidates|
  {
    if candidates != [] {
      var c, rest := candidates[0], candidates[1..];
      assert candidates == [c] + rest;
      if AdmittedByAll(reqs, c) { LowestFromIsLeast(c, rest, reqs); } else { LowestIsLeast(rest, reqs); }
    }
  }

  method LowestSatisfying(candidates: seq<Semver>, reqs: seq<Requirement>) returns (best: Option<Semver>)
    ensures best == Lowest(candidates, reqs)
    ensures best.Some? ==> IsLeast(best.value, candidates, reqs)
    ensures best.None? <==> forall c :: c in candidates ==> !AdmittedByAll(reqs, c)
  {
    best := None;
    for i := 0 to |candidates|
      invariant LowestFrom(best, candidates[i..], reqs) == Lowest(candidates, reqs)
    {
      var c, ok := candidates[i], true;
      for j := 0 to |reqs|
        invariant ok && forall k :: 0 <= k < j ==> Admits(reqs[k].c, c)
      {
        if !Admits(reqs[j].c, c) {
          ok := false;
          break;
        }
      }
      assert ok <==> AdmittedByAll(reqs, c);
      assert candidates[i..][1..] == candidates[i + 1..];
      if ok {
        if best.None? || Compare(c, best.value) < 0 { best := Some(c); }
      }
    }
    LowestIsLeast(candidates, reqs);
  }

  /** highestSatisfying: an admitted candidate that no admitted candidate is above. */
  predicate IsGreatest(v: Semver, candidates: seq<Semver>, c: Constraint) {
    v in candidates && Admits(c, v) && forall o :: o in candidates && Admits(c, o) ==> Compare(v, o) >= 0
  }

  method HighestSatisfying(candidates: seq<Semver>, c: Constraint) returns (best: Option<Semver>)
    ensures best.Some? ==> IsGreatest(best.value, candidates, c)
    ensures best.None? <==> forall o :: o in candidates ==> !Admits(c, o)
  {
    best := None;
    for i := 0 to |candidates|
      invariant best.Some? ==> IsGreatest(best.value, candidates[..i], c)
      invariant best.None? <==> forall o :: o in candidates[..i] ==> !Admits(c, o)
    {
      assert candidates[..i + 1] == candidates[..i] + [candidates[i]];
      var v := candidates[i];
      if Admits(c, v) && (best.None? || Compare(v, best.value) > 0) {
        NewBest(v, best, candidates[..i], c);
        best := Some(v);
      } else if Admits(c, v) {
        CompareSymmetric(v, best.value);
      }
    }
    assert candidates[..|candidates|] == candidates;
  }

  lemma NewBest(v: Semver, best: Option<Semver>, seen: seq<Semver>, c: Constraint)
    requires Admits(c, v) && (best.None? ==> forall o :: o in seen ==> !Admits(c, o))
    requires best.Some? ==> IsGreatest(best.value, seen, c) && Compare(v, best.value) > 0
    ensures IsGreatest(v, seen + [v], c)
  {
    CompareSymmetric(v, v);
    forall o | o in seen && Admits(c, o) ensures Compare(v, o) >= 0 {
      CompareSymmetric(v, o);
      CompareSymmetric(v, best.value);
      CompareSymmetric(best.value, o);
      if Compare(v, o) < 0 { StrictlyTransitive(best.value, v, o); }
    }
  }

  // ---------------------------------------------------------------- the floor of all requirements

  function MaxFloorOf(reqs: seq<Requirement>): Option<Semver> {
    if reqs == [] then None else
    var floor, lo := MaxFloorOf(reqs[..|reqs| - 1]), FloorOf(reqs[|reqs| - 1].c.comps);
    if lo.Some? && (floor.None? || Compare(lo.value, floor.value) > 0) then lo else floor
  }

  method MaxFloor(reqs: seq<Requirement>) returns (floor: Option<Semver>)
    ensures floor == MaxFloorOf(reqs)
    ensures floor.Some? ==> forall v :: AdmittedByAll(reqs, v) ==> Compare(v, floor.value) >= 0
  {
    floor := None;
    for i := 0 to |reqs|
      invariant floor == MaxFloorOf(reqs[..i])
    {
      assert reqs[..i + 1] == reqs[..i] + [reqs[i]];
      var lo := Floor(reqs[i].c);
      if lo.Some? {
        if floor.None? || Compare(lo.value, floor.value) > 0 { floor := lo; }
      }
    }
    assert reqs[..|reqs|] == reqs;
    forall v | AdmittedByAll(reqs, v) ensures floor.Some? ==> Compare(v, floor.value) >= 0 {
      AdmittedIsAboveFloor(reqs, v);
    }
  }

  /** The floor is the bound of a comparator that every admitted version must meet. */
  lemma {:induction false} AdmittedIsAboveFloor(reqs: seq<Requirement>, v: Semver)
    requires AdmittedByAll(reqs, v)
    ensures MaxFloorOf(reqs).Some? ==> Compare(v, MaxFloorOf(reqs).value) >= 0
  {
    if reqs != [] {
      var rest, last := reqs[..|reqs| - 1], reqs[|reqs| - 1];
      assert reqs == rest + [last];
      AdmittedIsAboveFloor(rest, v);
      FloorIsGreatest(last.c.comps);
      assert Admits(last.c, v);
    }
  }

  /** A lower bound that a requirement imposes: `>=`, `>` or `=`. */
  ghost predicate IsLowerBound(v: Semver, reqs: seq<Requirement>) {
    exists r, cm :: r in reqs && cm in r.c.comps && cm.v == v && cm.op in [AtLeast, Above, Exactly]
  }

  lemma {:induction false} MaxFloorDominates(reqs: seq<Requirement>)
    ensures MaxFloorOf(reqs).None? <==> forall r :: r in reqs ==> FloorOf(r.c.comps).None?
    ensures MaxFloorOf(reqs).Some? ==>
              && (exists r :: r in reqs && FloorOf(r.c.comps) == MaxFloorOf(reqs))
              && (forall r :: r in reqs && FloorOf(r.c.comps).Some? ==> Compare(MaxFloorOf(reqs).value, FloorOf(r.c.comps).value) >= 0)
  {
    hide Compare, FloorOf;
    if reqs != [] {
      var rest, last := reqs[..|reqs| - 1], reqs[|reqs| - 1];
      assert reqs == rest + [last];
      assert forall r :: r in reqs <==> r in rest || r == last;
      MaxFloorDominates(rest);
      var m, was, lo := MaxFloorOf(reqs), MaxFloorOf(rest), FloorOf(last.c.comps);
      if m.Some? { CompareSymmetric(m.value, m.value); }
      if was.Some? && lo.Some? {
        CompareSymmetric(lo.value, was.value);
        forall r | r in rest && FloorOf(r.c.comps).Some? ensures Compare(m.value, FloorOf(r.c.comps).value) >= 0 {
          var v := FloorOf(r.c.comps).value;
          CompareSymmetric(lo.value, v);
          CompareSymmetric(was.value, v);
          if Compare(lo.value, v) < 0 && m == lo != was { StrictlyTransitive(was.value, lo.value, v); }
        }
      }
    }
  }

  /** The greatest floor is a lower bound of a requirement, the floor of no requirement is above it, and
      there is one unless no requirement has a lower bound. */
  lemma MaxFloorIsGreatest(reqs: seq<Requirement>)
    ensures MaxFloorOf(reqs).None? <==> !exists v :: IsLowerBound(v, reqs)
    ensures MaxFloorOf(reqs).Some? ==>
              && IsLowerBound(MaxFloorOf(reqs).value, reqs)
              && (forall r :: r in reqs && FloorOf(r.c.comps).Some? ==> Compare(MaxFloorOf(reqs).value, FloorOf(r.c.comps).value) >= 0)
  {
    hide Compare, FloorOf;
    MaxFloorDominates(reqs);
    if MaxFloorOf(reqs).Some? {
      var r :| r in reqs && FloorOf(r.c.comps) == MaxFloorOf(reqs);
      FloorIsGreatest(r.c.comps);
      var cm :| cm in r.c.comps && BoundsBelow(cm) && cm.v == MaxFloorOf(reqs).value;
      assert cm.op in [AtLeast, Above, Exactly];
      assert IsLowerBound(cm.v, reqs);
    } else if v :| IsLowerBound(v, reqs) {
      BoundHasFloor(v, reqs);
    }
  }

  lemma BoundHasFloor(v: Semver, reqs: seq<Requirement>)
    requires IsLowerBound(v, reqs)
    ensures exists r :: r in reqs && FloorOf(r.c.comps).Some?
  {
    var r, cm :| r in reqs && cm in r.c.comps && cm.v == v && cm.op in [AtLeast, Above, Exactly];
    FloorIsGreatest(r.c.comps);
    assert BoundsBelow(cm);
  }

  // ---------------------------------------------------------------- mvsSelect

  datatype MvsError = NoLowerBound | Conflict

  function Mvs(reqs: seq<Requirement>, candidates: seq<Semver>): Result<Semver, MvsError> {
    if candidates != [] then
      match Lowest(candidates, reqs) case Some(v) => Ok(v) case None => Err(Conflict)
    else
      match MaxFloorOf(reqs)
      case None => Err(NoLowerBound)
      case Some(floor) => if AdmittedByAll(reqs, floor) then Ok(floor) else Err(Conflict)
  }

  method MvsSelect(reqs: seq<Requirement>, candidates: seq<Semver>) returns (r: Result<Semver, MvsError>)
    ensures r == Mvs(reqs, candidates)
    ensures r.Ok? ==> AdmittedByAll(reqs, r.value)
  {
    if |candidates| > 0 {
      var sel := LowestSatisfying(candidates, reqs);
      if sel.Some? { return Ok(sel.value); }
      return Err(Conflict);
    }
    var floor := MaxFloor(reqs);
    if floor.None? { return Err(NoLowerBound); }
    for i := 0 to |reqs|
      invariant forall k :: 0 <= k < i ==> Admits(reqs[k].c, floor.value)
    {
      if !Admits(reqs[i].c, floor.value) { return Err(Conflict); }
    }
    return Ok(floor.value);
  }

  /** Over a candidate list the selection is the least admitted candidate, or a conflict
      exactly when there is none. */
  lemma SelectsLeast(reqs: seq<Requirement>, candidates: seq<Semver>)
    requires candidates != []
    ensures var r := Mvs(reqs, candidates);
            && (r.Ok? ==> IsLeast(r.value, candidates, reqs))
            && (r == Err(Conflict) <==> !exists c :: c in candidates && AdmittedByAll(reqs, c))
            && (r.Ok? || r == Err(Conflict))
  {
    LowestIsLeast(candidates, reqs);
  }

  /** More requirements over the same candidates never lower the selection. */
  lemma MoreRequirementsNeverLower(reqs: seq<Requirement>, more: seq<Requirement>, candidates: seq<Semver>)
    requires candidates != [] && Mvs(reqs + more, candidates).Ok?
    ensures Mvs(reqs, candidates).Ok?
    ensures Compare(Mvs(reqs, candidates).value, Mvs(reqs + more, candidates).value) <= 0
  {
    LowestIsLeast(candidates, reqs);
    LowestIsLeast(candidates, reqs + more);
    var v := Mvs(reqs + more, candidates).value;
    forall r | r in reqs ensures Admits(r.c, v) { assert r in reqs + more; }
    assert AdmittedByAll(reqs, v);
  }

  /** Where the greatest floor is itself an admitted candidate, selecting over the candidates
      and selecting the floor agree in precedence, and agree outright without ties. */
  lemma BothPathsAgree(reqs: seq<Requirement>, candidates: seq<Semver>)
    requires MaxFloorOf(reqs).Some? && MaxFloorOf(reqs).value in candidates && AdmittedByAll(reqs, MaxFloorOf(reqs).value)
    ensures Mvs(reqs, []) == Ok(MaxFloorOf(reqs).value) && Mvs(reqs, candidates).Ok?
    ensures Compare(Mvs(reqs, candidates).value, Mvs(reqs, []).value) == 0
    ensures (forall c :: c in candidates ==> Canonical(c)) ==> Mvs(reqs, candidates) == Mvs(reqs, [])
  {
    LowestIsLeast(candidates, reqs);
    var v, floor := Mvs(reqs, candidates).value, MaxFloorOf(reqs).value;
    AdmittedIsAboveFloor(reqs, v);
    if forall c :: c in candidates ==> Canonical(c) { TotalOrder(v, floor, floor); }
  }
}
