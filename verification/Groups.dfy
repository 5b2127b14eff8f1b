/** The structured-concurrency Group (arilrt/concurrency.go): the steps of its goroutines,
    interleaved in any order. */
module Groups {
  import opened Wrappers

  /** Where a spawned goroutine is. The body of the once is three steps: in, set err, cancel. */
  datatype Task =
    | Running                         // in f
    | Failed(e: int)                  // f returned an error; not in once.Do yet
    | Entered(e: int)                 // the one inside the once
    | Stored(e: int)                  // … with g.err set
    | Leaving                         // behind once.Do, or f returned nil; wg.Done comes next
    | Finished

  /** Where the goroutine that owns the scope is. */
  datatype Owner = Spawning | Waiting | Joined | Cancelled | Returned(result: Option<int>)

  datatype Once = Fresh | Busy | Over

  /** `returned`, what each f has returned, and `runner`, who entered the once, are history. */
  datatype Group = Group(
    tasks: seq<Task>, wg: int, once: Once, err: Option<int>, cancelled: bool, owner: Owner,
    returned: seq<Option<Option<int>>>, runner: Option<nat>)

  function NewGroup(): Group { Group([], 0, Fresh, None, false, Spawning, [], None) }

  datatype Step =
    | OwnerSpawns                     // Go, by the owner
    | TaskSpawns(i: nat)              // Go, by a task that still runs
    | TaskReturns(i: nat, r: Option<int>)
    | TaskEnters(i: nat)              // once.Do: the first runs the body, later ones wait for it
    | TaskStores(i: nat)
    | TaskCancels(i: nat)
    | TaskDone(i: nat)
    | OwnerWaits
    | OwnerJoins                      // wg.Wait returns
    | OwnerCancels
    | OwnerReturns

  function AddTask(g: Group): Group {
    g.(wg := g.wg + 1, tasks := g.tasks + [Running], returned := g.returned + [None])
  }

  predicate At(g: Group, i: nat, t: Task) { i < |g.tasks| && g.tasks[i] == t }

  /** One step, or None where it is not possible. */
  function Do(g: Group, s: Step): Option<Group> {
    match s
    case OwnerSpawns => if g.owner.Spawning? then Some(AddTask(g)) else None
    case TaskSpawns(i) => if At(g, i, Running) then Some(AddTask(g)) else None
    case TaskReturns(i, r) =>
      if At(g, i, Running) && i < |g.returned| then
        Some(g.(tasks := g.tasks[i := if r.Some? then Failed(r.value) else Leaving], returned := g.returned[i := Some(r)]))
      else None
    case TaskEnters(i) =>
      if i < |g.tasks| && g.tasks[i].Failed? then
        (match g.once
         case Fresh => Some(g.(tasks := g.tasks[i := Entered(g.tasks[i].e)], once := Busy, runner := Some(i)))
         case Busy => None
         case Over => Some(g.(tasks := g.tasks[i := Leaving])))
      else None
    case TaskStores(i) =>
      if i < |g.tasks| && g.tasks[i].Entered? then
        Some(g.(tasks := g.tasks[i := Stored(g.tasks[i].e)], err := Some(g.tasks[i].e)))
      else None
    case TaskCancels(i) =>
      if i < |g.tasks| && g.tasks[i].Stored? then Some(g.(tasks := g.tasks[i := Leaving], once := Over, cancelled := true)) else None
    case TaskDone(i) => if At(g, i, Leaving) then Some(g.(tasks := g.tasks[i := Finished], wg := g.wg - 1)) else None
    case OwnerWaits => if g.owner.Spawning? then Some(g.(owner := Waiting)) else None
    case OwnerJoins => if g.owner.Waiting? && g.wg == 0 then Some(g.(owner := Joined)) else None
    case OwnerCancels => if g.owner.Joined? then Some(g.(owner := Cancelled, cancelled := true)) else None
    case OwnerReturns => if g.owner.Cancelled? then Some(g.(owner := Returned(g.err))) else None
  }

  /** Running a schedule. */
  function Run(g: Group, steps: seq<Step>): Option<Group>
    decreases |steps|
  {
    if steps == [] then Some(g) else
    match Do(g, steps[0]) case Some(g') => Run(g', steps[1..]) case None => None
  }

  // ---------------------------------------------------------------- what every step keeps

  function Unfinished(tasks: seq<Task>): nat {
    if tasks == [] then 0 else (if tasks[0].Finished? then 0 else 1) + Unfinished(tasks[1..])
  }

  /** The task has passed, or is in, the once as its one runner. */
  predicate Runner(t: Task) { t.Entered? || t.Stored? }

  /** What a task's place says about what its f returned. */
  predicate Fits(t: Task, r: Option<Option<int>>) {
    match t
    case Running => r == None
    case Failed(e) => r == Some(Some(e))
    case Entered(e) => r == Some(Some(e))
    case Stored(e) => r == Some(Some(e))
    case _ => r.Some?
  }

  predicate FailedAt(g: Group, i: nat) { i < |g.returned| && g.returned[i].Some? && g.returned[i].value.Some? }

  ghost predicate TasksFit(g: Group) {
    |g.returned| == |g.tasks| && forall i :: 0 <= i < |g.tasks| ==> Fits(g.tasks[i], g.returned[i])
  }

  /** A task that got past the once, or needed none. */
  predicate Past(t: Task) { t.Leaving? || t.Finished? }

  /** Only the runner is inside the once; until it is over no failed task gets past it. */
  predicate BehavesAt(g: Group, i: nat)
    requires i < |g.tasks|
  {
    && (Runner(g.tasks[i]) ==> g.once.Busy? && g.runner == Some(i))
    && (Past(g.tasks[i]) && FailedAt(g, i) ==> g.once.Over?)
  }

  /** What is stored is the runner's own error. */
  ghost predicate OnceFits(g: Group) {
    && (forall i :: 0 <= i < |g.tasks| ==> BehavesAt(g, i))
    && (g.runner.Some? ==> g.runner.value < |g.tasks| && FailedAt(g, g.runner.value))
    && match g.once
       case Fresh => g.err == None && g.runner == None
       case Busy =>
         && g.runner.Some? && Runner(g.tasks[g.runner.value])
         && g.err == if g.tasks[g.runner.value].Stored? then g.returned[g.runner.value].value else None
       case Over => g.cancelled && g.runner.Some? && g.err == g.returned[g.runner.value].value
  }

  /** The owner passes the join only when everything is finished, and nothing starts afterwards. */
  ghost predicate OwnerFits(g: Group) {
    && g.wg == Unfinished(g.tasks)
    && (g.owner.Joined? || g.owner.Cancelled? || g.owner.Returned? ==> forall i :: 0 <= i < |g.tasks| ==> g.tasks[i].Finished?)
    && (g.owner.Cancelled? || g.owner.Returned? ==> g.cancelled)
    && (g.owner.Returned? ==> g.owner.result == g.err)
    && (g.cancelled ==> g.once.Over? || g.owner.Cancelled? || g.owner.Returned?)
  }

  ghost predicate Inv(g: Group) { TasksFit(g) && OnceFits(g) && OwnerFits(g) }

  lemma {:induction false} UnfinishedUpdate(tasks: seq<Task>, i: nat, t: Task)
    requires i < |tasks|
    ensures Unfinished(tasks[i := t]) ==
            Unfinished(tasks) + (if t.Finished? then 0 else 1) - (if tasks[i].Finished? then 0 else 1)
    decreases |tasks|
  {
    var u := tasks[i := t];
    if i == 0 {
      assert u[1..] == tasks[1..];
    } else {
      UnfinishedUpdate(tasks[1..], i - 1, t);
      assert u[1..] == tasks[1..][i - 1 := t];
    }
  }

  lemma {:induction false} UnfinishedAppend(tasks: seq<Task>)
    ensures Unfinished(tasks + [Running]) == Unfinished(tasks) + 1
    decreases |tasks|
  {
    if tasks == [] {
      assert (tasks + [Running])[1..] == [];
    } else {
      UnfinishedAppend(tasks[1..]);
      assert (tasks + [Running])[1..] == tasks[1..] + [Running];
    }
  }

  lemma {:induction false} NoneUnfinished(tasks: seq<Task>)
    ensures Unfinished(tasks) == 0 <==> forall i :: 0 <= i < |tasks| ==> tasks[i].Finished?
    decreases |tasks|
  {
    if tasks != [] {
      NoneUnfinished(tasks[1..]);
      if forall i :: 0 <= i < |tasks| ==> tasks[i].Finished? {
        forall i | 0 <= i < |tasks[1..]| ensures tasks[1..][i].Finished? { assert tasks[i + 1].Finished?; }
      }
      if Unfinished(tasks) == 0 {
        forall i | 0 <= i < |tasks| ensures tasks[i].Finished? { if i > 0 { assert tasks[1..][i - 1].Finished?; } }
      }
    }
  }

  /** Putting one task elsewhere keeps the others where they fit. */
  lemma DoKeepsTasksFit(g: Group, s: Step)
    requires Inv(g) && Do(g, s).Some?
    ensures TasksFit(Do(g, s).value)
  {
  }

  /** The task a step moves. */
  function Mover(s: Step): Option<nat> {
    match s
    case TaskReturns(i, _) => Some(i)
    case TaskEnters(i) => Some(i)
    case TaskStores(i) => Some(i)
    case TaskCancels(i) => Some(i)
    case TaskDone(i) => Some(i)
    case _ => None
  }

  lemma MovingKeepsOnceFits(g: Group, s: Step, i: nat)
    requires Inv(g) && Do(g, s).Some? && Mover(s) == Some(i)
    ensures OnceFits(Do(g, s).value)
  {
    var g' := Do(g, s).value;
    assert BehavesAt(g, i) && Fits(g.tasks[i], g.returned[i]);
    forall j | 0 <= j < |g'.tasks| ensures BehavesAt(g', j) { assert BehavesAt(g, j); }
  }

  lemma OthersKeepOnceFits(g: Group, s: Step)
    requires Inv(g) && Do(g, s).Some? && Mover(s) == None
    ensures OnceFits(Do(g, s).value)
  {
    var g' := Do(g, s).value;
    forall j | 0 <= j < |g'.tasks| ensures BehavesAt(g', j) {
      if j < |g.tasks| { assert BehavesAt(g, j); }
    }
  }

  lemma MovingKeepsOwnerFits(g: Group, s: Step, i: nat)
    requires Inv(g) && Do(g, s).Some? && Mover(s) == Some(i)
    ensures OwnerFits(Do(g, s).value)
  {
    assert i < |g.tasks| && !g.tasks[i].Finished?;
    UnfinishedUpdate(g.tasks, i, Do(g, s).value.tasks[i]);
    assert Do(g, s).value.tasks == g.tasks[i := Do(g, s).value.tasks[i]];
    assert BehavesAt(g, i);
  }

  lemma OthersKeepOwnerFits(g: Group, s: Step)
    requires Inv(g) && Do(g, s).Some? && Mover(s) == None
    ensures OwnerFits(Do(g, s).value)
  {
    NoneUnfinished(g.tasks);
    UnfinishedAppend(g.tasks);
  }

  lemma DoKeepsInv(g: Group, s: Step)
    requires Inv(g) && Do(g, s).Some?
    ensures Inv(Do(g, s).value)
  {
    DoKeepsTasksFit(g, s);
    match Mover(s)
    case Some(i) => MovingKeepsOnceFits(g, s, i); MovingKeepsOwnerFits(g, s, i);
    case None => OthersKeepOnceFits(g, s); OthersKeepOwnerFits(g, s);
  }

  lemma {:induction false} RunsKeepInv(g: Group, steps: seq<Step>)
    requires Inv(g) && Run(g, steps).Some?
    ensures Inv(Run(g, steps).value)
    decreases |steps|
  {
    if steps != [] {
      DoKeepsInv(g, steps[0]);
      RunsKeepInv(Do(g, steps[0]).value, steps[1..]);
    }
  }

  /** In every interleaving: when Wait returns, every task has finished and the context is
      cancelled; it returns nil exactly when every task returned nil, and otherwise the error
      of the one task that entered the once. */
  lemma WaitReturns(steps: seq<Step>)
    requires Run(NewGroup(), steps).Some? && Run(NewGroup(), steps).value.owner.Returned?
    ensures var g := Run(NewGroup(), steps).value;
            && (forall i :: 0 <= i < |g.tasks| ==> g.tasks[i].Finished?)
            && g.cancelled
            && (g.owner.result == None <==> forall i :: 0 <= i < |g.returned| ==> g.returned[i] == Some(None))
            && (g.owner.result.Some? ==>
                  g.runner.Some? && g.runner.value < |g.returned| && g.returned[g.runner.value] == Some(g.owner.result))
  {
    RunsKeepInv(NewGroup(), steps);
    var g := Run(NewGroup(), steps).value;
    forall i | 0 <= i < |g.tasks| ensures FailedAt(g, i) ==> g.once.Over? { assert BehavesAt(g, i); }
    forall i | 0 <= i < |g.tasks| ensures g.returned[i].Some? { assert Fits(g.tasks[i], g.returned[i]); }
    assert !g.once.Busy?;
    if g.owner.result == None {
      forall i | 0 <= i < |g.returned| ensures g.returned[i] == Some(None) { assert !FailedAt(g, i); }
    }
  }

  /** The context is cancelled early only for a task that failed. */
  lemma CancelledForAReason(steps: seq<Step>)
    requires Run(NewGroup(), steps).Some?
    ensures var g := Run(NewGroup(), steps).value;
            g.cancelled && (g.owner.Spawning? || g.owner.Waiting? || g.owner.Joined?) ==>
              exists i :: 0 <= i < |g.returned| && FailedAt(g, i)
  {
    RunsKeepInv(NewGroup(), steps);
  }

  // ---------------------------------------------------------------- every group can be waited for

  function TaskRank(t: Task): nat {
    match t
    case Running => 5
    case Failed(_) => 4
    case Entered(_) => 3
    case Stored(_) => 2
    case Leaving => 1
    case Finished => 0
  }

  function TasksRank(tasks: seq<Task>): nat { if tasks == [] then 0 else TaskRank(tasks[0]) + TasksRank(tasks[1..]) }

  function OwnerRank(o: Owner): nat {
    match o
    case Spawning => 4
    case Waiting => 3
    case Joined => 2
    case Cancelled => 1
    case Returned(_) => 0
  }

  /** What is left to do, unless more tasks are spawned. */
  function Rank(g: Group): nat { TasksRank(g.tasks) + OwnerRank(g.owner) }

  lemma {:induction false} RankUpdate(tasks: seq<Task>, i: nat, t: Task)
    requires i < |tasks|
    ensures TasksRank(tasks[i := t]) == TasksRank(tasks) + TaskRank(t) - TaskRank(tasks[i])
    decreases |tasks|
  {
    var u := tasks[i := t];
    if i == 0 {
      assert u[1..] == tasks[1..];
    } else {
      RankUpdate(tasks[1..], i - 1, t);
      assert u[1..] == tasks[1..][i - 1 := t];
    }
  }

  /** Every step but a spawn leaves less to do. */
  lemma StepsDescend(g: Group, s: Step)
    requires Do(g, s).Some? && !s.OwnerSpawns? && !s.TaskSpawns?
    ensures Rank(Do(g, s).value) < Rank(g)
  {
    if Mover(s).Some? {
      var i := Mover(s).value;
      assert Do(g, s).value.tasks == g.tasks[i := Do(g, s).value.tasks[i]];
      RankUpdate(g.tasks, i, Do(g, s).value.tasks[i]);
    }
  }

  /** The step a task that has not finished can take, unless it waits for the runner of the once. */
  function NextOf(t: Task, i: nat): Step {
    match t
    case Running => TaskReturns(i, None)
    case Failed(_) => TaskEnters(i)
    case Entered(_) => TaskStores(i)
    case Stored(_) => TaskCancels(i)
    case _ => TaskDone(i)
  }

  /** Until Wait has returned, some step other than a spawn is possible: nothing is stuck. */
  lemma NeverStuck(g: Group) returns (s: Step)
    requires Inv(g) && !g.owner.Returned?
    ensures Do(g, s).Some? && !s.OwnerSpawns? && !s.TaskSpawns?
  {
    NoneUnfinished(g.tasks);
    match g.owner {
      case Spawning => s := OwnerWaits;
      case Joined => s := OwnerCancels;
      case Cancelled => s := OwnerReturns;
      case Waiting =>
        if Unfinished(g.tasks) == 0 {
          s := OwnerJoins;
        } else {
          var i: nat :| i < |g.tasks| && !g.tasks[i].Finished?;
          assert Fits(g.tasks[i], g.returned[i]);
          if g.once.Busy? && g.tasks[i].Failed? { i := g.runner.value; }
          s := NextOf(g.tasks[i], i);
        }
    }
  }

  /** From everywhere a run can get to, Wait can return. */
  lemma {:induction false} WaitCanReturn(g: Group) returns (steps: seq<Step>)
    requires Inv(g)
    ensures Run(g, steps).Some? && Run(g, steps).value.owner.Returned?
    decreases Rank(g)
  {
    steps := [];
    if !g.owner.Returned? {
      var s := NeverStuck(g);
      StepsDescend(g, s);
      DoKeepsInv(g, s);
      var rest := WaitCanReturn(Do(g, s).value);
      steps := [s] + rest;
      assert steps[1..] == rest;
    }
  }
}
