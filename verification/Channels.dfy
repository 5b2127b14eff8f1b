/** The channel contract monitor (arilrt/contract.go), in every interleaving of registrations,
    checks, sends and closes. */
module Channels {
  import opened Wrappers

  /** The dynamic types a channel value is boxed to. */
  datatype View = Both | SendOnly | RecvOnly
  type Key = (int, View)

  /** chanContractState, without its lock: each locked section is one step. `ch` is the channel
      it was made for. */
  datatype Monitor = Monitor(ch: int, name: string, forbidSend: bool, closed: bool)

  /** Which monitor each boxed channel finds, the monitors, and the registrations that are not
      done, each with the view it stores next. */
  datatype Registry = Registry(of: map<Key, int>, monitors: seq<Monitor>, pending: map<int, View>)

  /** Effects name the check they follow, by its place in the log. */
  datatype Event =
    | SendChecked(ch: int, passed: bool)
    | SendDone(ch: int, check: nat)
    | SendCrashed(ch: int, check: nat)            // Go: send on closed channel
    | CloseChecked(ch: int, passed: bool)
    | CloseDone(ch: int, check: nat)
    | CloseCrashed(ch: int, check: nat)           // Go: close of closed channel
    | DrainChecked(ch: int, passed: bool)

  /** `sending` and `closing`: the checks whose effect has not happened. */
  datatype State = State(r: Registry, shut: set<int>, sending: set<int>, closing: set<int>, log: seq<Event>)

  function Start(): State { State(Registry(map[], [], map[]), {}, {}, {}, []) }

  datatype Step =
    | BeginsRegister(ch: int, name: string, forbidSend: bool)   // makes the state, stores the first view
    | StoresView(m: int)                                        // the second view, then the third
    | ChecksSend(ch: int)
    | Sends(check: int)
    | ChecksClose(ch: int)
    | Closes(check: int)
    | ChecksDrain(ch: int, view: View)

  function LoadOrStore(of: map<Key, int>, k: Key, m: int): map<Key, int> { if k in of then of else of[k := m] }

  predicate IsMonitor(r: Registry, m: int) { 0 <= m < |r.monitors| }
  predicate Monitored(r: Registry, k: Key) { k in r.of && IsMonitor(r, r.of[k]) }

  function MonitorAt(r: Registry, k: Key): Monitor
    requires Monitored(r, k)
  {
    r.monitors[r.of[k]]
  }

  function Begin(r: Registry, ch: int, name: string, forbidSend: bool): Registry {
    var m := |r.monitors|;
    Registry(LoadOrStore(r.of, (ch, Both), m), r.monitors + [Monitor(ch, name, forbidSend, false)], r.pending[m := SendOnly])
  }

  function StoreNext(r: Registry, m: int): Registry
    requires m in r.pending && IsMonitor(r, m)
  {
    var of := LoadOrStore(r.of, (r.monitors[m].ch, r.pending[m]), m);
    r.(of := of, pending := if r.pending[m].SendOnly? then r.pending[m := RecvOnly] else r.pending - {m})
  }

  /** A violation of `forbid send after close`. */
  predicate BadSend(r: Registry, ch: int) {
    Monitored(r, (ch, SendOnly)) && MonitorAt(r, (ch, SendOnly)).forbidSend && MonitorAt(r, (ch, SendOnly)).closed
  }

  predicate BadClose(r: Registry, ch: int) { Monitored(r, (ch, SendOnly)) && MonitorAt(r, (ch, SendOnly)).closed }

  function MarkClosed(r: Registry, ch: int): Registry {
    if Monitored(r, (ch, SendOnly)) then
      var m := r.of[(ch, SendOnly)];
      r.(monitors := r.monitors[m := r.monitors[m].(closed := true)])
    else r
  }

  predicate IsCheck(log: seq<Event>, i: int, close: bool) {
    0 <= i < |log| && (if close then log[i].CloseChecked? else log[i].SendChecked?) && log[i].passed
  }

  /** One step, or None where it is not possible. */
  function Do(s: State, step: Step): Option<State> {
    match step
    case BeginsRegister(ch, name, forbidSend) => Some(s.(r := Begin(s.r, ch, name, forbidSend)))
    case StoresView(m) => if m in s.r.pending && IsMonitor(s.r, m) then Some(s.(r := StoreNext(s.r, m))) else None
    case ChecksSend(ch) =>
      if BadSend(s.r, ch) then Some(s.(log := s.log + [SendChecked(ch, false)]))
      else Some(s.(sending := s.sending + {|s.log|}, log := s.log + [SendChecked(ch, true)]))
    case Sends(i) =>
      if i in s.sending && IsCheck(s.log, i, false) then
        var ch := s.log[i].ch;
        Some(s.(sending := s.sending - {i}, log := s.log + [if ch in s.shut then SendCrashed(ch, i) else SendDone(ch, i)]))
      else None
    case ChecksClose(ch) =>
      if BadClose(s.r, ch) then Some(s.(log := s.log + [CloseChecked(ch, false)]))
      else Some(s.(r := MarkClosed(s.r, ch), closing := s.closing + {|s.log|}, log := s.log + [CloseChecked(ch, true)]))
    case Closes(i) =>
      if i in s.closing && IsCheck(s.log, i, true) then
        var ch := s.log[i].ch;
        Some(s.(closing := s.closing - {i}, shut := s.shut + {ch},
                log := s.log + [if ch in s.shut then CloseCrashed(ch, i) else CloseDone(ch, i)]))
      else None
    case ChecksDrain(ch, view) =>
      Some(s.(log := s.log + [DrainChecked(ch, Monitored(s.r, (ch, view)) ==> MonitorAt(s.r, (ch, view)).closed)]))
  }

  function Run(s: State, steps: seq<Step>): Option<State>
    decreases |steps|
  {
    if steps == [] then Some(s) else
    match Run(s, steps[..|steps| - 1]) case Some(s') => Do(s', steps[|steps| - 1]) case None => None
  }

  // ---------------------------------------------------------------- registration

  ghost predicate OfMonitors(r: Registry) { forall m :: m in r.pending ==> IsMonitor(r, m) && !r.pending[m].Both? }

  /** A registration of ch that is not done. */
  predicate Pending(r: Registry, ch: int, m: int) { m in r.pending && IsMonitor(r, m) && r.monitors[m].ch == ch }

  predicate Stored(r: Registry, ch: int, view: View) { (ch, view) in r.of }

  /** What every step keeps of a channel: its views find monitors of it, the first view first; a
      registration at the third view has passed the second; the first one stores what is missing. */
  ghost predicate Kept(r: Registry, ch: int) {
    && (forall view :: Stored(r, ch, view) ==>
          IsMonitor(r, r.of[(ch, view)]) && r.monitors[r.of[(ch, view)]].ch == ch && Stored(r, ch, Both))
    && (forall m :: Pending(r, ch, m) ==> Stored(r, ch, Both) && (r.pending[m].RecvOnly? ==> Stored(r, ch, SendOnly)))
    && (forall view :: Stored(r, ch, view) && r.of[(ch, view)] in r.pending ==>
          view.Both? || (view.SendOnly? && r.pending[r.of[(ch, view)]].RecvOnly?))
    && (Stored(r, ch, Both) && r.of[(ch, Both)] !in r.pending ==> Stored(r, ch, SendOnly) && Stored(r, ch, RecvOnly))
  }

  /** The views stored so far find the monitor of the first registration. */
  ghost predicate Unsplit(r: Registry, ch: int) {
    Stored(r, ch, Both) && forall view :: Stored(r, ch, view) ==> r.of[(ch, view)] == r.of[(ch, Both)]
  }

  /** Every view finds one monitor. */
  ghost predicate Registered(r: Registry, ch: int) { Unsplit(r, ch) && r.of[(ch, Both)] !in r.pending }

  /** Another registration of ch is under way while the first one is. */
  ghost predicate Overtaking(r: Registry, ch: int) {
    Stored(r, ch, Both) && r.of[(ch, Both)] in r.pending && exists m :: Pending(r, ch, m) && m != r.of[(ch, Both)]
  }

  /** Same views, same registrations, and monitors that differ in `closed` at most. */
  ghost predicate SameBooks(r: Registry, r': Registry) {
    r'.of == r.of && r'.pending == r.pending && |r'.monitors| == |r.monitors| &&
    forall m :: 0 <= m < |r.monitors| ==> r'.monitors[m] == r.monitors[m].(closed := r'.monitors[m].closed)
  }

  lemma BeginKeeps(r: Registry, new_: int, name: string, forbidSend: bool, ch: int)
    requires OfMonitors(r) && Kept(r, ch)
    ensures OfMonitors(Begin(r, new_, name, forbidSend)) && Kept(Begin(r, new_, name, forbidSend), ch)
    ensures Unsplit(r, ch) ==> Unsplit(Begin(r, new_, name, forbidSend), ch)
  {
  }

  lemma StoreKeeps(r: Registry, m: int, ch: int)
    requires OfMonitors(r) && Kept(r, ch) && m in r.pending
    ensures OfMonitors(StoreNext(r, m)) && Kept(StoreNext(r, m), ch)
    ensures Unsplit(r, ch) && !(Pending(r, ch, m) && Overtaking(r, ch)) ==> Unsplit(StoreNext(r, m), ch)
  {
  }

  lemma MarkKeeps(r: Registry, closed: int, ch: int)
    requires OfMonitors(r) && Kept(r, ch)
    ensures SameBooks(r, MarkClosed(r, closed)) && OfMonitors(MarkClosed(r, closed)) && Kept(MarkClosed(r, closed), ch)
    ensures Unsplit(r, ch) ==> Unsplit(MarkClosed(r, closed), ch)
  {
  }

  lemma DoKeepsRegistry(s: State, step: Step, ch: int)
    requires OfMonitors(s.r) && Kept(s.r, ch) && Do(s, step).Some?
    ensures OfMonitors(Do(s, step).value.r) && Kept(Do(s, step).value.r, ch)
    ensures Unsplit(s.r, ch) && !(step.StoresView? && Overtaking(s.r, ch)) ==> Unsplit(Do(s, step).value.r, ch)
  {
    hide OfMonitors, Kept, Overtaking;
    match step
    case BeginsRegister(c, name, forbidSend) => BeginKeeps(s.r, c, name, forbidSend, ch);
    case StoresView(m) => StoreKeeps(s.r, m, ch);
    case ChecksClose(c) => MarkKeeps(s.r, c, ch);
    case _ =>
  }

  lemma {:induction false} RunsKeepRegistry(steps: seq<Step>, ch: int)
    requires Run(Start(), steps).Some?
    ensures OfMonitors(Run(Start(), steps).value.r) && Kept(Run(Start(), steps).value.r, ch)
    decreases |steps|
  {
    if steps != [] {
      RunsKeepRegistry(steps[..|steps| - 1], ch);
      DoKeepsRegistry(Run(Start(), steps[..|steps| - 1]).value, steps[|steps| - 1], ch);
    }
  }

  // ---------------------------------------------------------------- overlapping registrations

  predicate FirstUnderWay(r: Registry, ch: int) { Stored(r, ch, Both) && r.of[(ch, Both)] in r.pending }

  /** No registration of ch starts between the first and the last store of the first one. */
  ghost predicate Alone(steps: seq<Step>, ch: int)
    requires Run(Start(), steps).Some?
    decreases |steps|
  {
    steps != [] ==>
      && Alone(steps[..|steps| - 1], ch)
      && (steps[|steps| - 1].BeginsRegister? && steps[|steps| - 1].ch == ch
          ==> !FirstUnderWay(Run(Start(), steps[..|steps| - 1]).value.r, ch))
  }

  /** The views of ch find one monitor, as far as they are stored. */
  ghost predicate Whole(r: Registry, ch: int) { Stored(r, ch, Both) ==> Unsplit(r, ch) }

  lemma BeginAlone(r: Registry, new_: int, name: string, forbidSend: bool, ch: int)
    requires OfMonitors(r) && Kept(r, ch) && Whole(r, ch) && !Overtaking(r, ch) && (new_ == ch ==> !FirstUnderWay(r, ch))
    ensures var r' := Begin(r, new_, name, forbidSend); Whole(r', ch) && !Overtaking(r', ch)
  {
    var r' := Begin(r, new_, name, forbidSend);
    BeginKeeps(r, new_, name, forbidSend, ch);
    forall m | Pending(r', ch, m) && FirstUnderWay(r', ch) ensures m == r'.of[(ch, Both)] {
      if m < |r.monitors| { assert Pending(r, ch, m); }
    }
  }

  lemma StoreAlone(r: Registry, m: int, ch: int)
    requires OfMonitors(r) && Kept(r, ch) && Whole(r, ch) && !Overtaking(r, ch) && m in r.pending
    ensures Whole(StoreNext(r, m), ch) && !Overtaking(StoreNext(r, m), ch)
  {
    var r' := StoreNext(r, m);
    StoreKeeps(r, m, ch);
    forall n | Pending(r', ch, n) && FirstUnderWay(r', ch) ensures n == r'.of[(ch, Both)] { assert Pending(r, ch, n); }
  }

  lemma MarkAlone(r: Registry, closed: int, ch: int)
    requires OfMonitors(r) && Kept(r, ch) && Whole(r, ch) && !Overtaking(r, ch)
    ensures Whole(MarkClosed(r, closed), ch) && !Overtaking(MarkClosed(r, closed), ch)
  {
    var r' := MarkClosed(r, closed);
    MarkKeeps(r, closed, ch);
    forall n | Pending(r', ch, n) && FirstUnderWay(r', ch) ensures n == r'.of[(ch, Both)] { assert Pending(r, ch, n); }
  }

  lemma StepAlone(s: State, step: Step, ch: int)
    requires OfMonitors(s.r) && Kept(s.r, ch) && Do(s, step).Some? && Whole(s.r, ch) && !Overtaking(s.r, ch)
    requires step.BeginsRegister? && step.ch == ch ==> !FirstUnderWay(s.r, ch)
    ensures Whole(Do(s, step).value.r, ch) && !Overtaking(Do(s, step).value.r, ch)
  {
    hide OfMonitors, Kept, Whole, Overtaking;
    match step
    case BeginsRegister(c, name, forbidSend) => BeginAlone(s.r, c, name, forbidSend, ch);
    case StoresView(m) => StoreAlone(s.r, m, ch);
    case ChecksClose(c) => MarkAlone(s.r, c, ch);
    case _ =>
  }

  lemma {:induction false} AloneStaysWhole(steps: seq<Step>, ch: int)
    requires Run(Start(), steps).Some? && Alone(steps, ch)
    ensures Whole(Run(Start(), steps).value.r, ch) && !Overtaking(Run(Start(), steps).value.r, ch)
    decreases |steps|
  {
    if steps != [] {
      var before := steps[..|steps| - 1];
      AloneStaysWhole(before, ch);
      RunsKeepRegistry(before, ch);
      StepAlone(Run(Start(), before).value, steps[|steps| - 1], ch);
    }
  }

  /** Registrations under way go on. */
  function Stores(ms: seq<int>): seq<Step>
    decreases |ms|
  {
    if ms == [] then [] else Stores(ms[..|ms| - 1]) + [StoresView(ms[|ms| - 1])]
  }

  lemma OneStep(steps: seq<Step>, step: Step)
    ensures Run(Start(), steps + [step]) == match Run(Start(), steps) case Some(s) => Do(s, step) case None => None
  {
    assert (steps + [step])[..|steps + [step]| - 1] == steps;
  }

  lemma OneStore(steps: seq<Step>, ms: seq<int>, m: int)
    ensures steps + Stores(ms + [m]) == (steps + Stores(ms)) + [StoresView(m)]
  {
    assert (ms + [m])[..|ms|] == ms;
  }

  /** The other registration stores its next view. */
  lemma StoringSplits(r: Registry, ch: int, m: int)
    requires OfMonitors(r) && Kept(r, ch) && FirstUnderWay(r, ch) && Pending(r, ch, m) && m != r.of[(ch, Both)]
    ensures var r' := StoreNext(r, m);
            if r.pending[m].SendOnly? && Stored(r, ch, SendOnly) then
              FirstUnderWay(r', ch) && Pending(r', ch, m) && m != r'.of[(ch, Both)] && r'.pending[m].RecvOnly?
            else !Whole(r', ch)
  {
    var view := r.pending[m];
    var r' := StoreNext(r, m);
    if !(view.SendOnly? && Stored(r, ch, SendOnly)) {
      assert view.RecvOnly? && Stored(r, ch, RecvOnly) ==> r.of[(ch, RecvOnly)] != r.of[(ch, Both)];
      assert Stored(r', ch, view) && r'.of[(ch, view)] != r'.of[(ch, Both)];
    }
  }

  lemma StoringGoesOn(steps: seq<Step>, ms: seq<int>, m: int)
    requires Run(Start(), steps + Stores(ms)).Some?
    requires var r := Run(Start(), steps + Stores(ms)).value.r; m in r.pending && IsMonitor(r, m)
    ensures Run(Start(), steps + Stores(ms + [m])).Some?
    ensures Run(Start(), steps + Stores(ms + [m])).value.r == StoreNext(Run(Start(), steps + Stores(ms)).value.r, m)
  {
    hide Run, Stores, StoreNext;
    OneStore(steps, ms, m);
    OneStep(steps + Stores(ms), StoresView(m));
  }

  /** A registration that overtakes the first one can store a view before it. */
  lemma OvertakingSplits(steps: seq<Step>, ch: int) returns (ms: seq<int>)
    requires Run(Start(), steps).Some? && Overtaking(Run(Start(), steps).value.r, ch)
    ensures Run(Start(), steps + Stores(ms)).Some? && !Whole(Run(Start(), steps + Stores(ms)).value.r, ch)
  {
    hide Kept, OfMonitors, Whole, StoreNext, Run;
    var r := Run(Start(), steps).value.r;
    RunsKeepRegistry(steps, ch);
    assert steps + Stores([]) == steps;
    var m :| Pending(r, ch, m) && m != r.of[(ch, Both)];
    StoringSplits(r, ch, m);
    StoringGoesOn(steps, [], m);
    ms := [] + [m];
    if r.pending[m].SendOnly? && Stored(r, ch, SendOnly) {
      RunsKeepRegistry(steps + Stores(ms), ch);
      StoringSplits(StoreNext(r, m), ch, m);
      StoringGoesOn(steps, ms, m);
      ms := ms + [m];
    }
  }

  lemma {:induction false} StoresAreAlone(steps: seq<Step>, ms: seq<int>, ch: int)
    requires Run(Start(), steps + Stores(ms)).Some? && Run(Start(), steps).Some? && Alone(steps, ch)
    ensures Alone(steps + Stores(ms), ch)
    decreases |ms|
  {
    if ms == [] {
      assert steps + Stores(ms) == steps;
    } else {
      var before, m := ms[..|ms| - 1], ms[|ms| - 1];
      assert ms == before + [m];
      OneStore(steps, before, m);
      OneStep(steps + Stores(before), StoresView(m));
      StoresAreAlone(steps, before, ch);
      assert (steps + Stores(ms))[..|steps + Stores(ms)| - 1] == steps + Stores(before);
    }
  }

  /** From some point of the run on, registrations under way can split the views of ch. */
  ghost predicate CanSplit(steps: seq<Step>, ch: int) {
    exists k, ms :: 0 <= k <= |steps| && Run(Start(), steps[..k] + Stores(ms)).Some?
                    && !Whole(Run(Start(), steps[..k] + Stores(ms)).value.r, ch)
  }

  lemma {:induction false} PrefixRuns(steps: seq<Step>, k: nat)
    requires k <= |steps| && Run(Start(), steps).Some?
    ensures Run(Start(), steps[..k]).Some?
    decreases |steps|
  {
    if k < |steps| {
      PrefixRuns(steps[..|steps| - 1], k);
      assert steps[..|steps| - 1][..k] == steps[..k];
    } else {
      assert steps[..k] == steps;
    }
  }

  lemma {:induction false} PrefixAlone(steps: seq<Step>, k: nat, ch: int)
    requires k <= |steps| && Run(Start(), steps).Some? && Alone(steps, ch)
    ensures Run(Start(), steps[..k]).Some? && Alone(steps[..k], ch)
    decreases |steps|
  {
    PrefixRuns(steps, k);
    if k < |steps| {
      PrefixAlone(steps[..|steps| - 1], k, ch);
      assert steps[..|steps| - 1][..k] == steps[..k];
    } else {
      assert steps[..k] == steps;
    }
  }

  /** The step at which a registration of ch starts while the first one is under way. */
  lemma {:induction false} FirstOverlap(steps: seq<Step>, ch: int) returns (k: nat)
    requires Run(Start(), steps).Some? && !Alone(steps, ch)
    ensures 0 < k <= |steps| && Run(Start(), steps[..k]).Some? && Overtaking(Run(Start(), steps[..k]).value.r, ch)
    decreases |steps|
  {
    var before := steps[..|steps| - 1];
    if Alone(before, ch) {
      k := |steps|;
      assert steps[..k] == steps;
      RunsKeepRegistry(before, ch);
      BeginsOvertaking(Run(Start(), before).value, steps[|steps| - 1], ch);
    } else {
      k := FirstOverlap(before, ch);
      assert before[..k] == steps[..k];
    }
  }

  lemma BeginsOvertaking(s: State, step: Step, ch: int)
    requires OfMonitors(s.r) && Kept(s.r, ch) && step.BeginsRegister? && step.ch == ch && FirstUnderWay(s.r, ch)
    ensures Overtaking(Do(s, step).value.r, ch)
  {
    assert Pending(Do(s, step).value.r, ch, |s.r.monitors|);
  }

  /** The views of a channel can come apart if and only if a registration of it starts while the
      first one is under way. */
  lemma ViewsSplitExactly(steps: seq<Step>, ch: int)
    requires Run(Start(), steps).Some?
    ensures CanSplit(steps, ch) <==> !Alone(steps, ch)
  {
    if Alone(steps, ch) {
      forall k, ms | 0 <= k <= |steps| && Run(Start(), steps[..k] + Stores(ms)).Some?
        ensures Whole(Run(Start(), steps[..k] + Stores(ms)).value.r, ch)
      {
        PrefixAlone(steps, k, ch);
        StoresAreAlone(steps[..k], ms, ch);
        AloneStaysWhole(steps[..k] + Stores(ms), ch);
      }
    } else {
      var k := FirstOverlap(steps, ch);
      var ms := OvertakingSplits(steps[..k], ch);
    }
  }

  /** Two registrations of one channel that start before either has stored its second view. */
  lemma OverlapSplits(ch: int, name: string, forbidSend: bool)
    ensures var steps := [BeginsRegister(ch, name, forbidSend), BeginsRegister(ch, name, forbidSend)];
            Run(Start(), steps).Some? && CanSplit(steps, ch)
  {
    var b := BeginsRegister(ch, name, forbidSend);
    OneStep([], b);
    OneStep([b], b);
    assert [] + [b] == [b] && [b] + [b] == [b, b];
    assert [b, b][..1] == [b];
    var r := Run(Start(), [b]).value.r;
    assert FirstUnderWay(r, ch);
    assert !Alone([b, b], ch);
    ViewsSplitExactly([b, b], ch);
  }

  // ---------------------------------------------------------------- the log

  predicate IsEffect(e: Event) { e.SendDone? || e.SendCrashed? || e.CloseDone? || e.CloseCrashed? }
  predicate IsClose(e: Event) { e.CloseDone? || e.CloseCrashed? }

  /** A close has shut ch before place k. */
  ghost predicate ShutBefore(log: seq<Event>, ch: int, k: int) { exists j :: 0 <= j < k && j < |log| && log[j].CloseDone? && log[j].ch == ch }

  /** An effect follows its check, which passed; Go crashes it exactly on a channel shut before. */
  ghost predicate EffectFits(log: seq<Event>, k: int)
    requires 0 <= k < |log|
  {
    IsEffect(log[k]) ==>
      && log[k].check < k && IsCheck(log, log[k].check, IsClose(log[k])) && log[log[k].check].ch == log[k].ch
      && (log[k].SendCrashed? || log[k].CloseCrashed? <==> ShutBefore(log, log[k].ch, k))
  }

  /** What every step keeps: each effect fits, a check has one effect at most, and those that wait
      have none. */
  ghost predicate Books(s: State) {
    && (forall k :: 0 <= k < |s.log| ==> EffectFits(s.log, k))
    && (forall k, k' :: 0 <= k < k' < |s.log| && IsEffect(s.log[k]) && IsEffect(s.log[k']) ==> s.log[k].check != s.log[k'].check)
    && (forall i :: i in s.sending ==> IsCheck(s.log, i, false))
    && (forall i :: i in s.closing ==> IsCheck(s.log, i, true))
    && (forall k :: 0 <= k < |s.log| && IsEffect(s.log[k]) ==> s.log[k].check !in s.sending && s.log[k].check !in s.closing)
    && (forall ch :: ch in s.shut <==> ShutBefore(s.log, ch, |s.log|))
  }

  lemma ShutAppend(log: seq<Event>, e: Event, ch: int, k: nat)
    requires k <= |log|
    ensures ShutBefore(log + [e], ch, k) <==> ShutBefore(log, ch, k)
    ensures ShutBefore(log + [e], ch, |log| + 1) <==> ShutBefore(log, ch, |log|) || (e.CloseDone? && e.ch == ch)
  {
    var more := log + [e];
    assert forall j :: 0 <= j < |log| ==> more[j] == log[j];
    if e.CloseDone? && e.ch == ch { assert more[|log|] == e; }
  }

  /** An event that is no effect. */
  lemma PlainKeepsBooks(s: State, s': State, e: Event)
    requires Books(s) && !IsEffect(e) && s'.log == s.log + [e] && s'.shut == s.shut
    requires s'.sending == s.sending || (s'.sending == s.sending + {|s.log|} && e.SendChecked? && e.passed)
    requires s'.closing == s.closing || (s'.closing == s.closing + {|s.log|} && e.CloseChecked? && e.passed)
    ensures Books(s')
  {
    forall k | 0 <= k < |s'.log| ensures EffectFits(s'.log, k) {
      if k < |s.log| {
        assert EffectFits(s.log, k);
        if IsEffect(s.log[k]) { ShutAppend(s.log, e, s.log[k].ch, k); }
      }
    }
    forall ch ensures ch in s'.shut <==> ShutBefore(s'.log, ch, |s'.log|) { ShutAppend(s.log, e, ch, |s.log|); }
    forall k | 0 <= k < |s.log| && IsEffect(s.log[k]) ensures s.log[k].check < |s.log| { assert EffectFits(s.log, k); }
  }

  /** The effect of a check that waited. */
  lemma EffectKeepsBooks(s: State, s': State, e: Event)
    requires Books(s) && IsEffect(e) && s'.log == s.log + [e] && e.check < |s.log|
    requires IsCheck(s.log, e.check, IsClose(e)) && s.log[e.check].ch == e.ch
    requires e.check in s.sending || e.check in s.closing
    requires e.SendCrashed? || e.CloseCrashed? <==> e.ch in s.shut
    requires s'.shut == if IsClose(e) then s.shut + {e.ch} else s.shut
    requires s'.sending == s.sending - {e.check} && s'.closing == s.closing - {e.check}
    ensures Books(s')
  {
    forall k | 0 <= k < |s'.log| ensures EffectFits(s'.log, k) {
      if k < |s.log| {
        assert EffectFits(s.log, k);
        if IsEffect(s.log[k]) { ShutAppend(s.log, e, s.log[k].ch, k); }
      } else {
        ShutAppend(s.log, e, e.ch, |s.log|);
      }
    }
    forall ch ensures ch in s'.shut <==> ShutBefore(s'.log, ch, |s'.log|) { ShutAppend(s.log, e, ch, |s.log|); }
  }

  /** A close of ch has passed its check before place k. */
  ghost predicate PassedBefore(log: seq<Event>, ch: int, k: int) { exists j :: 0 <= j < k && j < |log| && log[j] == CloseChecked(ch, true) }

  lemma PassedAppend(log: seq<Event>, e: Event, ch: int, k: nat)
    requires k <= |log|
    ensures PassedBefore(log + [e], ch, k) <==> PassedBefore(log, ch, k)
    ensures PassedBefore(log + [e], ch, |log| + 1) <==> PassedBefore(log, ch, |log|) || e == CloseChecked(ch, true)
  {
    var more := log + [e];
    assert forall j :: 0 <= j < |log| ==> more[j] == log[j];
    if e == CloseChecked(ch, true) { assert more[|log|] == e; }
  }

  /** A monitor is closed only behind a close of its channel that passed. */
  ghost predicate ClosedForAReason(s: State) {
    forall m :: IsMonitor(s.r, m) && s.r.monitors[m].closed ==> PassedBefore(s.log, s.r.monitors[m].ch, |s.log|)
  }

  /** The invariant of every run. */
  ghost predicate Inv(s: State) { OfMonitors(s.r) && (forall ch :: Kept(s.r, ch)) && Books(s) && ClosedForAReason(s) }

  lemma DoKeepsBooks(s: State, step: Step)
    requires Books(s) && Do(s, step).Some?
    ensures Books(Do(s, step).value)
  {
    hide Books;
    var s' := Do(s, step).value;
    match step
    case BeginsRegister(_, _, _) => BooksOfLog(s, s');
    case StoresView(_) => BooksOfLog(s, s');
    case ChecksSend(_) => PlainKeepsBooks(s, s', s'.log[|s.log|]);
    case Sends(i) =>
      OneKind(s, i);
      EffectKeepsBooks(s, s', s'.log[|s.log|]);
    case ChecksClose(_) => PlainKeepsBooks(s, s', s'.log[|s.log|]);
    case Closes(i) =>
      OneKind(s, i);
      EffectKeepsBooks(s, s', s'.log[|s.log|]);
    case ChecksDrain(_, _) => PlainKeepsBooks(s, s', s'.log[|s.log|]);
  }

  lemma BooksOfLog(s: State, s': State)
    requires Books(s) && s' == s.(r := s'.r)
    ensures Books(s')
  {
  }

  lemma OneKind(s: State, i: int)
    requires Books(s) && 0 <= i < |s.log|
    ensures s.log[i].SendChecked? ==> s.closing - {i} == s.closing
    ensures s.log[i].CloseChecked? ==> s.sending - {i} == s.sending
  {
  }

  lemma DoKeepsReason(s: State, step: Step)
    requires ClosedForAReason(s) && Kept(s.r, if step.ChecksClose? then step.ch else 0) && Do(s, step).Some?
    ensures ClosedForAReason(Do(s, step).value)
  {
    var s' := Do(s, step).value;
    forall m | IsMonitor(s'.r, m) && s'.r.monitors[m].closed ensures PassedBefore(s'.log, s'.r.monitors[m].ch, |s'.log|) {
      if |s'.log| > |s.log| {
        assert s'.log == s.log + [s'.log[|s.log|]];
        PassedAppend(s.log, s'.log[|s.log|], s'.r.monitors[m].ch, |s.log|);
      }
      if IsMonitor(s.r, m) && s.r.monitors[m].closed { assert PassedBefore(s.log, s.r.monitors[m].ch, |s.log|); }
    }
  }

  lemma DoKeepsInv(s: State, step: Step)
    requires Inv(s) && Do(s, step).Some?
    ensures Inv(Do(s, step).value)
  {
    hide OfMonitors, Kept, Books, ClosedForAReason;
    var s' := Do(s, step).value;
    forall ch ensures Kept(s'.r, ch) { DoKeepsRegistry(s, step, ch); }
    DoKeepsRegistry(s, step, 0);
    DoKeepsBooks(s, step);
    DoKeepsReason(s, step);
  }

  lemma {:induction false} RunsKeepInv(s: State, steps: seq<Step>)
    requires Inv(s) && Run(s, steps).Some?
    ensures Inv(Run(s, steps).value)
    decreases |steps|
  {
    hide Inv;
    if steps != [] {
      RunsKeepInv(s, steps[..|steps| - 1]);
      DoKeepsInv(Run(s, steps[..|steps| - 1]).value, steps[|steps| - 1]);
    }
  }

  // ---------------------------------------------------------------- the monitor of a channel

  /** When a check of ch at place b passes: a close exactly if no close has passed before, a send unless
      it is forbidden behind one that has, a drain check exactly behind one. */
  ghost predicate PassesRightly(log: seq<Event>, e: Event, b: int, ch: int, forbidSend: bool) {
    e.ch == ch ==>
      && (e.CloseChecked? ==> (e.passed <==> !PassedBefore(log, ch, b)))
      && (e.SendChecked? ==> (e.passed <==> !(forbidSend && PassedBefore(log, ch, b))))
      && (e.DrainChecked? ==> (e.passed <==> PassedBefore(log, ch, b)))
  }

  ghost predicate Guards(log: seq<Event>, ch: int, forbidSend: bool) {
    forall b :: 0 <= b < |log| ==> PassesRightly(log, log[b], b, ch, forbidSend)
  }

  /** So a close passes once, and behind it no forbidden send does. */
  lemma PassesOnce(log: seq<Event>, ch: int, forbidSend: bool, a: int, b: int)
    requires Guards(log, ch, forbidSend) && 0 <= a < b < |log| && log[a] == CloseChecked(ch, true)
    ensures log[b] != CloseChecked(ch, true) && (forbidSend ==> log[b] != SendChecked(ch, true))
  {
    assert PassesRightly(log, log[b], b, ch, forbidSend) && PassedBefore(log, ch, b);
  }

  /** The channel is registered, and its monitor has done its work so far. */
  ghost predicate Guarded(s: State, ch: int, forbidSend: bool) {
    && Inv(s) && Registered(s.r, ch) && Monitored(s.r, (ch, Both))
    && MonitorAt(s.r, (ch, Both)).forbidSend == forbidSend
    && (MonitorAt(s.r, (ch, Both)).closed <==> PassedBefore(s.log, ch, |s.log|))
    && Guards(s.log, ch, forbidSend)
  }

  lemma GuardsAppend(log: seq<Event>, e: Event, ch: int, forbidSend: bool)
    requires Guards(log, ch, forbidSend) && PassesRightly(log, e, |log|, ch, forbidSend)
    ensures Guards(log + [e], ch, forbidSend)
  {
    var more := log + [e];
    forall b | 0 <= b < |more| ensures PassesRightly(more, more[b], b, ch, forbidSend) {
      PassedAppend(log, e, ch, b);
      if b < |log| { assert PassesRightly(log, log[b], b, ch, forbidSend); }
    }
  }

  /** The views of a registered channel are all there. */
  lemma AllViews(r: Registry, ch: int, view: View)
    requires Registered(r, ch) && Kept(r, ch)
    ensures Monitored(r, (ch, view)) && MonitorAt(r, (ch, view)) == MonitorAt(r, (ch, Both)) && MonitorAt(r, (ch, Both)).ch == ch
  {
    match view
    case Both => assert Stored(r, ch, Both);
    case SendOnly => assert Stored(r, ch, SendOnly) && Stored(r, ch, Both);
    case RecvOnly => assert Stored(r, ch, RecvOnly) && Stored(r, ch, Both);
  }

  lemma RegisteredStays(s: State, step: Step, ch: int)
    requires Inv(s) && Registered(s.r, ch) && Do(s, step).Some?
    ensures Registered(Do(s, step).value.r, ch)
    ensures Do(s, step).value.r.of[(ch, Both)] == s.r.of[(ch, Both)]
  {
    DoKeepsRegistry(s, step, ch);
    AllViews(s.r, ch, Both);
  }

  /** What a step does to the monitor of a registered channel. */
  lemma MonitorAfter(s: State, step: Step, ch: int)
    requires Inv(s) && Registered(s.r, ch) && Do(s, step).Some?
    ensures Monitored(s.r, (ch, Both)) && Monitored(Do(s, step).value.r, (ch, Both))
    ensures var m, m' := MonitorAt(s.r, (ch, Both)), MonitorAt(Do(s, step).value.r, (ch, Both));
            m' == m.(closed := m.closed || step == ChecksClose(ch))
  {
    RegisteredStays(s, step, ch);
    AllViews(s.r, ch, Both);
    AllViews(s.r, ch, SendOnly);
    if step.ChecksClose? { assert Kept(s.r, step.ch); MarkKeeps(s.r, step.ch, ch); }
  }

  /** The event of a step fits the monitor of the channel. */
  lemma EventFits(s: State, step: Step, ch: int, forbidSend: bool)
    requires Guarded(s, ch, forbidSend) && Do(s, step).Some? && |Do(s, step).value.log| > |s.log|
    ensures var e := Do(s, step).value.log[|s.log|];
            && PassesRightly(s.log, e, |s.log|, ch, forbidSend)
            && (e == CloseChecked(ch, true) <==> step == ChecksClose(ch) && !PassedBefore(s.log, ch, |s.log|))
  {
    AllViews(s.r, ch, SendOnly);
    AllViews(s.r, ch, RecvOnly);
    match step
    case ChecksDrain(_, view) => AllViews(s.r, ch, view);
    case _ =>
  }

  lemma DoKeepsGuarded(s: State, step: Step, ch: int, forbidSend: bool)
    requires Guarded(s, ch, forbidSend) && Do(s, step).Some?
    ensures Guarded(Do(s, step).value, ch, forbidSend)
  {
    hide Inv, Registered, Guards;
    var s' := Do(s, step).value;
    DoKeepsInv(s, step);
    RegisteredStays(s, step, ch);
    MonitorAfter(s, step, ch);
    if |s'.log| > |s.log| {
      var e := s'.log[|s.log|];
      assert s'.log == s.log + [e];
      EventFits(s, step, ch, forbidSend);
      GuardsAppend(s.log, e, ch, forbidSend);
      PassedAppend(s.log, e, ch, |s.log|);
    }
  }

  lemma {:induction false} RunsKeepGuarded(s: State, steps: seq<Step>, ch: int, forbidSend: bool)
    requires Guarded(s, ch, forbidSend) && Run(s, steps).Some?
    ensures Guarded(Run(s, steps).value, ch, forbidSend)
    decreases |steps|
  {
    hide Guarded;
    if steps != [] {
      RunsKeepGuarded(s, steps[..|steps| - 1], ch, forbidSend);
      DoKeepsGuarded(Run(s, steps[..|steps| - 1]).value, steps[|steps| - 1], ch, forbidSend);
    }
  }

  /** The channel has been registered, alone, and not been used. */
  ghost predicate Ready(steps: seq<Step>, ch: int)
    requires Run(Start(), steps).Some?
  {
    var s := Run(Start(), steps).value;
    Alone(steps, ch) && Stored(s.r, ch, Both) && !FirstUnderWay(s.r, ch) && forall e :: e in s.log ==> e.ch != ch
  }

  /** What its first registration said. */
  function Forbids(r: Registry, ch: int): bool { Monitored(r, (ch, Both)) && MonitorAt(r, (ch, Both)).forbidSend }

  lemma ReadyIsGuarded(steps: seq<Step>, ch: int)
    requires Run(Start(), steps).Some? && Ready(steps, ch)
    ensures var s := Run(Start(), steps).value; Guarded(s, ch, Forbids(s.r, ch))
  {
    var s := Run(Start(), steps).value;
    assert Run(Start(), []) == Some(Start());
    RunsFromStart(steps);
    AloneStaysWhole(steps, ch);
    AllViews(s.r, ch, Both);
    assert !PassedBefore(s.log, ch, |s.log|);
  }

  lemma RunsFromStart(steps: seq<Step>)
    requires Run(Start(), steps).Some?
    ensures Inv(Run(Start(), steps).value)
  {
    RunsKeepInv(Start(), steps);
  }

  /** In every run behind a registration of the channel that no other overlaps, whatever other
      registrations follow: at most one close passes its check, and no close crashes; the channel
      is closed only by a close that passed; a forbidden send does not pass behind a passed close;
      a drain check passes exactly behind one; and all views find the first monitor. */
  lemma MonitorIsSafe(before: seq<Step>, steps: seq<Step>, ch: int)
    requires Run(Start(), before).Some? && Ready(before, ch) && Run(Run(Start(), before).value, steps).Some?
    ensures var s, t := Run(Start(), before).value, Run(Run(Start(), before).value, steps).value;
            && Guards(t.log, ch, Forbids(s.r, ch))
            && (forall k :: 0 <= k < |t.log| ==> EffectFits(t.log, k))
            && (forall k :: 0 <= k < |t.log| && t.log[k].ch == ch ==> !t.log[k].CloseCrashed?)
            && (forall k, k' ::
                  0 <= k < k' < |t.log| && t.log[k].CloseDone? && t.log[k].ch == ch && t.log[k'].CloseDone? ==>
                    t.log[k'].ch != ch)
            && Registered(t.r, ch)
  {
    var s, t := Run(Start(), before).value, Run(Run(Start(), before).value, steps).value;
    ReadyIsGuarded(before, ch);
    RunsKeepGuarded(s, steps, ch, Forbids(s.r, ch));
    forall k, k' | 0 <= k < k' < |t.log| && t.log[k].CloseDone? && t.log[k].ch == ch && IsClose(t.log[k']) ensures t.log[k'].ch != ch {
      OneClose(t, k, k', ch, Forbids(s.r, ch));
    }
    forall k | 0 <= k < |t.log| && t.log[k].CloseCrashed? ensures t.log[k].ch != ch { CrashedElsewhere(t, k, ch, Forbids(s.r, ch)); }
  }

  lemma CrashedElsewhere(t: State, k: nat, ch: int, forbidSend: bool)
    requires Guarded(t, ch, forbidSend) && k < |t.log| && t.log[k].CloseCrashed?
    ensures t.log[k].ch != ch
  {
    assert EffectFits(t.log, k);
    var j :| 0 <= j < k && j < |t.log| && t.log[j].CloseDone? && t.log[j].ch == t.log[k].ch;
    if t.log[j].ch == ch { OneClose(t, j, k, ch, forbidSend); }
  }

  /** Two closes of the channel follow the one check that passed, so they are one. */
  lemma OneClose(t: State, k: nat, k': nat, ch: int, forbidSend: bool)
    requires Guarded(t, ch, forbidSend) && k < k' < |t.log| && IsClose(t.log[k]) && IsClose(t.log[k']) && t.log[k].ch == ch
    ensures t.log[k'].ch != ch
  {
    assert EffectFits(t.log, k) && EffectFits(t.log, k');
    var a, b := t.log[k].check, t.log[k'].check;
    assert t.log[a] == CloseChecked(ch, true) && t.log[b] == CloseChecked(t.log[k'].ch, true) && a != b;
  }

  /** The effect of a send on such a channel, whose sends are forbidden behind a close, crashes
      if and only if a close of the channel falls between the check of the send and the send. */
  lemma SendCrashesExactly(before: seq<Step>, steps: seq<Step>, ch: int, k: nat)
    requires Run(Start(), before).Some? && Ready(before, ch) && Run(Run(Start(), before).value, steps).Some?
    requires Forbids(Run(Start(), before).value.r, ch)
    requires var t := Run(Run(Start(), before).value, steps).value;
             k < |t.log| && (t.log[k].SendDone? || t.log[k].SendCrashed?) && t.log[k].ch == ch
    ensures var log := Run(Run(Start(), before).value, steps).value.log;
            log[k].SendCrashed? <==> exists j :: log[k].check < j < k && log[j].CloseDone? && log[j].ch == ch
  {
    var s, t := Run(Start(), before).value, Run(Run(Start(), before).value, steps).value;
    ReadyIsGuarded(before, ch);
    RunsKeepGuarded(s, steps, ch, true);
    assert EffectFits(t.log, k);
    var i := t.log[k].check;
    assert t.log[i] == SendChecked(ch, true);
    if ShutBefore(t.log, ch, k) {
      var j :| 0 <= j < k && j < |t.log| && t.log[j].CloseDone? && t.log[j].ch == ch;
      assert EffectFits(t.log, j);
      var c := t.log[j].check;
      assert t.log[c] == CloseChecked(ch, true);
      // the send did not pass behind the close
      assert !(c < i);
    }
  }

  /** Register, check a send, close, send. */
  function SendBehindClose(ch: int): seq<Step> { [ChecksSend(ch), ChecksClose(ch), Closes(1), Sends(0)] }

  /** Such a run: the send passed its check and crashes. */
  lemma CheckedSendMayCrash(ch: int, name: string)
    ensures var before := [BeginsRegister(ch, name, true), StoresView(0), StoresView(0)];
            && Run(Start(), before).Some? && Ready(before, ch)
            && var s := Run(Start(), before).value;
               Run(s, SendBehindClose(ch)).Some? && SendCrashed(ch, 0) in Run(s, SendBehindClose(ch)).value.log
  {
    var b, v := BeginsRegister(ch, name, true), StoresView(0);
    var before := [b, v, v];
    OneStep([], b);
    OneStep([b], v);
    OneStep([b, v], v);
    assert [] + [b] == [b] && [b] + [v] == [b, v] && [b, v] + [v] == before;
    assert before[..2] == [b, v] && [b, v][..1] == [b] && [b][..0] == [];
    assert Alone([], ch) && Alone([b], ch) && Alone([b, v], ch) && Alone(before, ch);
    var s := Run(Start(), before).value;
    assert s.log == [] && BadSend(s.r, ch) == false && BadClose(s.r, ch) == false;
    SendCrashRun(s, ch);
  }

  lemma SendCrashRun(s: State, ch: int)
    requires s.log == [] && s.shut == {} && s.sending == {} && s.closing == {} && !BadSend(s.r, ch) && !BadClose(s.r, ch)
    ensures Run(s, SendBehindClose(ch)).Some? && SendCrashed(ch, 0) in Run(s, SendBehindClose(ch)).value.log
  {
    var steps := SendBehindClose(ch);
    assert steps[..3][..2] == steps[..2] && steps[..2][..1] == steps[..1] && steps[..1][..0] == [];
    var s1 := Do(s, steps[0]).value;
    assert Run(s, steps[..1]) == Some(s1) && s1.log == [SendChecked(ch, true)];
    var s2 := Do(s1, steps[1]).value;
    assert Run(s, steps[..2]) == Some(s2) && s2.log == [SendChecked(ch, true), CloseChecked(ch, true)];
    var s3 := Do(s2, steps[2]).value;
    assert Run(s, steps[..3]) == Some(s3) && ch in s3.shut && 0 in s3.sending;
    assert s3.log[0] == SendChecked(ch, true);
    assert Run(s, steps) == Do(s3, steps[3]);
    assert Do(s3, steps[3]).value.log == s3.log + [SendCrashed(ch, 0)];
  }

  // ---------------------------------------------------------------- channels without a contract

  /** ch was never registered. */
  ghost predicate Unknown(r: Registry, ch: int) {
    (forall view :: !Stored(r, ch, view)) && forall m :: IsMonitor(r, m) ==> r.monitors[m].ch != ch
  }

  predicate IsChecked(e: Event) { e.SendChecked? || e.CloseChecked? || e.DrainChecked? }

  lemma SameBooksUnknown(r: Registry, r': Registry, ch: int)
    requires Unknown(r, ch) && SameBooks(r, r')
    ensures Unknown(r', ch)
  {
    forall view ensures !Stored(r', ch, view) { assert !Stored(r, ch, view); }
    forall m | IsMonitor(r', m) ensures r'.monitors[m].ch != ch { assert IsMonitor(r, m); }
  }

  lemma BeginUnknown(r: Registry, c: int, name: string, forbidSend: bool, ch: int)
    requires Unknown(r, ch) && c != ch
    ensures Unknown(Begin(r, c, name, forbidSend), ch)
  {
    var r' := Begin(r, c, name, forbidSend);
    forall view ensures !Stored(r', ch, view) { assert !Stored(r, ch, view); }
    forall m | IsMonitor(r', m) ensures r'.monitors[m].ch != ch { if m < |r.monitors| { assert IsMonitor(r, m); } }
  }

  lemma StoreUnknown(r: Registry, m: int, ch: int)
    requires Unknown(r, ch) && m in r.pending && IsMonitor(r, m)
    ensures Unknown(StoreNext(r, m), ch)
  {
    forall view ensures !Stored(StoreNext(r, m), ch, view) { assert !Stored(r, ch, view); }
  }

  lemma DoKeepsUnknown(s: State, step: Step, ch: int)
    requires OfMonitors(s.r) && (forall c :: Kept(s.r, c)) && Unknown(s.r, ch) && Do(s, step).Some?
    requires !(step.BeginsRegister? && step.ch == ch)
    ensures Unknown(Do(s, step).value.r, ch)
  {
    hide Kept, Unknown, SameBooks;
    match step
    case BeginsRegister(c, name, forbidSend) => BeginUnknown(s.r, c, name, forbidSend, ch);
    case StoresView(m) => StoreUnknown(s.r, m, ch);
    case ChecksClose(c) =>
      assert Kept(s.r, c);
      MarkKeeps(s.r, c, c);
      SameBooksUnknown(s.r, MarkClosed(s.r, c), ch);
    case _ =>
  }

  /** A step logs one event at most; a check of such a channel passes. */
  lemma UnknownPasses(s: State, step: Step, ch: int)
    requires Unknown(s.r, ch) && Do(s, step).Some?
    ensures var log, log' := s.log, Do(s, step).value.log;
            log' == log || (|log'| == |log| + 1 && log'[..|log|] == log
                            && (IsChecked(log'[|log|]) && log'[|log|].ch == ch ==> log'[|log|].passed))
  {
    match step
    case ChecksDrain(c, view) => assert c == ch ==> !Stored(s.r, ch, view);
    case _ => assert !Stored(s.r, ch, SendOnly);
  }

  /** Checks of a channel nobody registers pass. */
  lemma {:induction false} UnregisteredPasses(steps: seq<Step>, ch: int)
    requires Run(Start(), steps).Some? && forall i :: 0 <= i < |steps| && steps[i].BeginsRegister? ==> steps[i].ch != ch
    ensures var s := Run(Start(), steps).value;
            Unknown(s.r, ch) && forall k :: 0 <= k < |s.log| && IsChecked(s.log[k]) && s.log[k].ch == ch ==> s.log[k].passed
    decreases |steps|
  {
    hide Inv, Unknown;
    if steps != [] {
      var before, step := steps[..|steps| - 1], steps[|steps| - 1];
      UnregisteredPasses(before, ch);
      RunsFromStart(before);
      InvHasParts(Run(Start(), before).value);
      DoKeepsUnknown(Run(Start(), before).value, step, ch);
      UnknownPasses(Run(Start(), before).value, step, ch);
    } else {
      StartsUnknown(ch);
    }
  }

  lemma InvHasParts(s: State)
    requires Inv(s)
    ensures OfMonitors(s.r) && forall c :: Kept(s.r, c)
  {
  }

  lemma StartsUnknown(ch: int)
    ensures Unknown(Start().r, ch)
  {
  }
}
