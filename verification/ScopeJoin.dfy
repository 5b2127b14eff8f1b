/** The join of a scope (ScopeJoinBeforeIndex, internal/ast/spawn.go; emitScopeExpr,
    internal/codegen/concurrency.go), run against the tasks of its group. */
module ScopeJoin {
  import opened Wrappers
  import opened Groups
  import opened Scopes

  // ---------------------------------------------------------------- placement

  predicate IsChannelClose(s: Stmt) { s.ExprStmt? && s.e.Close? }

  /** The join goes before the first close behind the last statement that launches; without
      either, behind all statements (-1). */
  ghost predicate IsJoinIndex(stmts: seq<Stmt>, r: int) {
    if r < 0 then
      r == -1 && forall last :: IsLastLaunch(stmts, last) ==> forall k :: last < k < |stmts| ==> !IsChannelClose(stmts[k])
    else
      r < |stmts| && IsChannelClose(stmts[r])
      && exists last :: IsLastLaunch(stmts, last) && last < r && forall k :: last < k < r ==> !IsChannelClose(stmts[k])
  }

  ghost predicate IsLastLaunch(stmts: seq<Stmt>, last: int) {
    0 <= last < |stmts| && StmtLaunches(stmts[last]) && forall k :: last < k < |stmts| ==> !StmtLaunches(stmts[k])
  }

  method ScopeJoinBeforeIndex(stmts: seq<Stmt>) returns (r: int)
    ensures IsJoinIndex(stmts, r)
  {
    var lastSpawn := -1;
    for i := 0 to |stmts|
      invariant -1 <= lastSpawn < i
      invariant lastSpawn >= 0 ==> StmtLaunches(stmts[lastSpawn])
      invariant forall k :: lastSpawn < k < i ==> !StmtLaunches(stmts[k])
    {
      if StmtLaunches(stmts[i]) { lastSpawn := i; }
    }
    if lastSpawn < 0 { return -1; }
    assert IsLastLaunch(stmts, lastSpawn);
    for i := lastSpawn + 1 to |stmts|
      invariant forall k :: lastSpawn < k < i ==> !IsChannelClose(stmts[k])
    {
      if IsChannelClose(stmts[i]) { return i; }
    }
    return -1;
  }

  lemma JoinIndexIsUnique(stmts: seq<Stmt>, r: int, r': int)
    requires IsJoinIndex(stmts, r) && IsJoinIndex(stmts, r')
    ensures r == r'
  {
    if r >= 0 && r' >= 0 {
      var last :| IsLastLaunch(stmts, last) && last < r && forall k :: last < k < r ==> !IsChannelClose(stmts[k]);
      var last' :| IsLastLaunch(stmts, last') && last' < r' && forall k :: last' < k < r' ==> !IsChannelClose(stmts[k]);
      assert last == last';
    }
  }

  // ---------------------------------------------------------------- the emitted scope, running

  /** The statements of a scope and its value, with the place of the join among them. */
  datatype Scope = Scope(stmts: seq<Stmt>, value: Option<Expr>, join: int) {
    ghost predicate Placed() { IsJoinIndex(stmts, join) }

    function JoinAt(): nat { if join < 0 then |stmts| else join }

    /** Statement k may launch a task; the value counts as the statement behind the last. */
    ghost predicate MayLaunch(k: nat) {
      if k < |stmts| then CanLaunch(stmts[k]) else k == |stmts| && value.Some? && CanLaunchExpr(value.value)
    }

    /** There is no spawn in statement k. */
    predicate Free(k: nat) {
      if k < |stmts| then SpawnFreeStmt(stmts[k]) else k == |stmts| && value.Some? ==> SpawnFree(value.value)
    }

    /** No spawn from the join up to statement hi. */
    ghost predicate ClearTo(hi: nat) { forall k :: JoinAt() <= k < hi ==> Free(k) }
  }

  datatype Event = Began(k: nat) | Sent(task: nat)

  /** `begun` statements have begun; the last of them may still be running. */
  datatype System = System(g: Group, begun: nat, log: seq<Event>)

  datatype Move =
    | TaskMoves(s: Step)
    | TaskSends(i: nat)
    | Launches                        // `spawn` in the statement that runs
    | Joins(s: Step)                  // a step of Wait
    | Begins                          // the next statement, or the value

  predicate IsTaskStep(s: Step) { s.TaskSpawns? || Mover(s).Some? }
  predicate IsWaitStep(s: Step) { s.OwnerWaits? || s.OwnerJoins? || s.OwnerCancels? || s.OwnerReturns? }

  function InGroup(x: System, g: Option<Group>): Option<System> { if g.Some? then Some(x.(g := g.value)) else None }

  ghost function Go(sc: Scope, x: System, m: Move): Option<System> {
    match m
    case TaskMoves(s) => if IsTaskStep(s) then InGroup(x, Do(x.g, s)) else None
    case TaskSends(i) => if At(x.g, i, Running) then Some(x.(log := x.log + [Sent(i)])) else None
    case Launches =>
      if x.begun > 0 && sc.MayLaunch(x.begun - 1) && (x.begun == sc.JoinAt() ==> x.g.owner.Spawning?)
      then Some(x.(g := AddTask(x.g))) else None
    case Joins(s) => if x.begun == sc.JoinAt() && IsWaitStep(s) then InGroup(x, Do(x.g, s)) else None
    case Begins =>
      if x.begun <= |sc.stmts| && (x.begun == sc.JoinAt() ==> x.g.owner == Returned(None))
      then Some(x.(begun := x.begun + 1, log := x.log + [Began(x.begun)])) else None
  }

  ghost function RunScope(sc: Scope, moves: seq<Move>): Option<System>
    decreases |moves|
  {
    if moves == [] then Some(System(NewGroup(), 0, [])) else
    match RunScope(sc, moves[..|moves| - 1])
    case Some(x) => Go(sc, x, moves[|moves| - 1])
    case None => None
  }

  // ---------------------------------------------------------------- safety

  /** After a statement at or behind the join has begun, no task of the scope sends. */
  ghost predicate QuietAfterJoin(sc: Scope, log: seq<Event>) {
    forall a, b :: 0 <= a < b < |log| && log[a].Began? && log[a].k >= sc.JoinAt() ==> !log[b].Sent?
  }

  ghost predicate Safe(sc: Scope, x: System) {
    && Inv(x.g)
    && (x.begun < sc.JoinAt() ==> x.g.owner.Spawning?)
    && (x.begun > sc.JoinAt() ==> x.g.owner == Returned(None))
    && (forall a :: 0 <= a < |x.log| && x.log[a].Began? ==> x.log[a].k < x.begun)
    && QuietAfterJoin(sc, x.log)
  }

  lemma FreeNeverLaunches(sc: Scope, k: nat)
    ensures sc.MayLaunch(k) <==> k <= |sc.stmts| && !sc.Free(k)
  {
    if k < |sc.stmts| { CanLaunchExactly(sc.stmts[k]); } else if k == |sc.stmts| && sc.value.Some? { CanLaunchExprExactly(sc.value.value); }
  }

  lemma MovingKeepsSafe(sc: Scope, x: System, m: Move, hi: nat)
    requires Safe(sc, x) && Go(sc, x, m).Some? && sc.ClearTo(hi) && x.begun <= hi
    ensures Safe(sc, Go(sc, x, m).value)
  {
    match m
    case TaskMoves(s) => DoKeepsInv(x.g, s);
    case TaskSends(i) => assert !x.g.tasks[i].Finished?;
    case Launches =>
      FreeNeverLaunches(sc, x.begun - 1);
      assert x.begun <= sc.JoinAt();
      assert x.g.owner.Spawning? && Do(x.g, OwnerSpawns) == Some(AddTask(x.g));
      DoKeepsInv(x.g, OwnerSpawns);
    case Joins(s) => DoKeepsInv(x.g, s);
    case Begins =>
  }

  lemma {:induction false} RunsAreSafe(sc: Scope, moves: seq<Move>, hi: nat)
    requires RunScope(sc, moves).Some? && sc.ClearTo(hi) && RunScope(sc, moves).value.begun <= hi
    ensures Safe(sc, RunScope(sc, moves).value)
    decreases |moves|
  {
    if moves != [] {
      RunsAreSafe(sc, moves[..|moves| - 1], hi);
      MovingKeepsSafe(sc, RunScope(sc, moves[..|moves| - 1]).value, moves[|moves| - 1], hi);
    }
  }

  /** In every interleaving, while a statement at or behind the join runs, and no statement from
      the join up to it holds a spawn, every task of the scope has finished without an error,
      and no send of a task follows it. */
  lemma JoinedBeforeClose(sc: Scope, moves: seq<Move>)
    requires RunScope(sc, moves).Some? && RunScope(sc, moves).value.begun > sc.JoinAt()
    requires sc.ClearTo(RunScope(sc, moves).value.begun)
    ensures var x := RunScope(sc, moves).value;
            && |x.g.returned| == |x.g.tasks|
            && (forall i :: 0 <= i < |x.g.tasks| ==> x.g.tasks[i].Finished? && x.g.returned[i] == Some(None))
            && QuietAfterJoin(sc, x.log)
  {
    RunsAreSafe(sc, moves, RunScope(sc, moves).value.begun);
    var g := RunScope(sc, moves).value.g;
    forall i | 0 <= i < |g.tasks| ensures g.tasks[i].Finished? && g.returned[i] == Some(None) {
      assert BehavesAt(g, i) && Fits(g.tasks[i], g.returned[i]);
      assert !g.once.Busy?;
    }
  }

  // ---------------------------------------------------------------- what the join does not cover

  lemma OneMove(sc: Scope, moves: seq<Move>, m: Move)
    ensures RunScope(sc, moves + [m]) ==
            match RunScope(sc, moves) case Some(x) => Go(sc, x, m) case None => None
  {
    var more := moves + [m];
    assert more[..|more| - 1] == moves;
  }

  /** The scope joined, with no task launched so far. */
  function Idle(begun: nat, owner: Owner, log: seq<Event>): System {
    System(NewGroup().(owner := owner, cancelled := owner.Returned?), begun, log)
  }

  /** Wait, with no task to wait for. */
  lemma WaitAlone(sc: Scope, before: seq<Move>, log: seq<Event>) returns (moves: seq<Move>)
    requires RunScope(sc, before) == Some(Idle(sc.JoinAt(), Spawning, log))
    ensures RunScope(sc, moves) == Some(Idle(sc.JoinAt(), Returned(None), log))
  {
    var g := NewGroup();
    moves := WaitStep(sc, before, OwnerWaits, System(g, sc.JoinAt(), log));
    moves := WaitStep(sc, moves, OwnerJoins, System(g.(owner := Waiting), sc.JoinAt(), log));
    moves := WaitStep(sc, moves, OwnerCancels, System(g.(owner := Joined), sc.JoinAt(), log));
    moves := WaitStep(sc, moves, OwnerReturns, System(g.(owner := Cancelled, cancelled := true), sc.JoinAt(), log));
  }

  lemma WaitStep(sc: Scope, before: seq<Move>, s: Step, x: System) returns (moves: seq<Move>)
    requires RunScope(sc, before) == Some(x) && x.begun == sc.JoinAt() && IsWaitStep(s) && Do(x.g, s).Some?
    ensures RunScope(sc, moves) == Some(x.(g := Do(x.g, s).value))
  {
    OneMove(sc, before, Joins(s));
    moves := before + [Joins(s)];
  }

  /** A run that launches nothing comes to statement k. */
  lemma {:induction false} Reach(sc: Scope, k: nat) returns (moves: seq<Move>, log: seq<Event>)
    requires k <= |sc.stmts| + 1 && sc.JoinAt() <= |sc.stmts|
    ensures RunScope(sc, moves) == Some(Idle(k, if k <= sc.JoinAt() then Spawning else Returned(None), log))
    decreases k
  {
    if k == 0 {
      moves, log := [], [];
    } else {
      moves, log := Reach(sc, k - 1);
      if k - 1 == sc.JoinAt() {
        moves := WaitAlone(sc, moves, log);
      }
      OneMove(sc, moves, Begins);
      moves, log := moves + [Begins], log + [Began(k - 1)];
    }
  }

  /** A run that launches a task in statement k, when that is not at the join. */
  lemma LaunchIn(sc: Scope, k: nat) returns (moves: seq<Move>)
    requires k <= |sc.stmts| && sc.JoinAt() <= |sc.stmts| && !sc.Free(k)
    ensures RunScope(sc, moves).Some? && RunScope(sc, moves).value.begun == k + 1
    ensures RunScope(sc, moves).value.g.tasks == [Running]
  {
    var log;
    moves, log := Reach(sc, k + 1);
    FreeNeverLaunches(sc, k);
    OneMove(sc, moves, Launches);
    moves := moves + [Launches];
  }

  /** Where the join does not come between, a goroutine keeps running while statements begin. */
  lemma {:induction false} StillRunning(sc: Scope, from: nat, k: nat) returns (moves: seq<Move>)
    requires from <= k <= |sc.stmts| && sc.JoinAt() <= |sc.stmts| && !sc.Free(from) && (k < sc.JoinAt() || sc.JoinAt() <= from)
    ensures RunScope(sc, moves).Some? && RunScope(sc, moves).value.begun == k + 1
    ensures RunScope(sc, moves).value.g.tasks == [Running]
    decreases k - from
  {
    if from == k {
      moves := LaunchIn(sc, k);
    } else {
      moves := StillRunning(sc, from, k - 1);
      OneMove(sc, moves, Begins);
      moves := moves + [Begins];
    }
  }

  /** Whenever statement k runs, all tasks launched so far have finished. */
  ghost predicate JoinedAt(sc: Scope, k: nat) {
    forall moves :: RunScope(sc, moves).Some? && RunScope(sc, moves).value.begun == k + 1 ==>
      forall i :: 0 <= i < |RunScope(sc, moves).value.g.tasks| ==> RunScope(sc, moves).value.g.tasks[i].Finished?
  }

  lemma RunningIsNotJoined(sc: Scope, k: nat, moves: seq<Move>)
    requires RunScope(sc, moves).Some? && RunScope(sc, moves).value.begun == k + 1
    requires RunScope(sc, moves).value.g.tasks == [Running]
    ensures !JoinedAt(sc, k)
  {
    assert RunScope(sc, moves).value.g.tasks[0] == Running;
  }

  lemma ClearIsJoined(sc: Scope, k: nat)
    requires sc.JoinAt() <= k && sc.ClearTo(k + 1)
    ensures JoinedAt(sc, k)
  {
    forall moves | RunScope(sc, moves).Some? && RunScope(sc, moves).value.begun == k + 1
      ensures forall i :: 0 <= i < |RunScope(sc, moves).value.g.tasks| ==> RunScope(sc, moves).value.g.tasks[i].Finished?
    {
      JoinedBeforeClose(sc, moves);
    }
  }

  /** From the join on, through the value, no task is ever left running if and only if there is
      no spawn in any statement from the join on, nor in the value. */
  lemma JoinCoversExactly(sc: Scope)
    requires sc.Placed()
    ensures (forall k :: sc.JoinAt() <= k <= |sc.stmts| ==> JoinedAt(sc, k)) <==>
            (forall k :: sc.JoinAt() <= k <= |sc.stmts| ==> sc.Free(k))
  {
    forall k | sc.JoinAt() <= k <= |sc.stmts| && !sc.Free(k) ensures !JoinedAt(sc, k) {
      var moves := LaunchIn(sc, k);
      RunningIsNotJoined(sc, k, moves);
    }
    if forall k :: sc.JoinAt() <= k <= |sc.stmts| ==> sc.Free(k) {
      forall k | sc.JoinAt() <= k <= |sc.stmts| ensures JoinedAt(sc, k) { ClearIsJoined(sc, k); }
    }
  }

  /** Where no spawn hides from the walk, the statements from the join on hold none. */
  lemma OpenStatementsAreClear(sc: Scope)
    requires sc.Placed() && forall k :: sc.JoinAt() <= k < |sc.stmts| ==> InTheOpen(sc.stmts[k])
    ensures sc.ClearTo(|sc.stmts|)
  {
    forall k | sc.JoinAt() <= k < |sc.stmts| ensures sc.Free(k) { WalkSeesExactly(sc.stmts[k]); }
  }

  // ---------------------------------------------------------------- the close that the join is for

  /** Statement c is the first close behind the last statement that holds a spawn. */
  ghost predicate IsFanIn(sc: Scope, c: nat) {
    && c < |sc.stmts| && IsChannelClose(sc.stmts[c])
    && exists last :: LastSpawn(sc, last) && last < c && forall k :: last < k < c ==> !IsChannelClose(sc.stmts[k])
  }

  ghost predicate LastSpawn(sc: Scope, last: int) {
    0 <= last < |sc.stmts| && !sc.Free(last) && forall k :: last < k < |sc.stmts| ==> sc.Free(k)
  }

  lemma SeenIsThere(s: Stmt)
    requires StmtLaunches(s)
    ensures !SpawnFreeStmt(s)
  {
    CanLaunchExactly(s);
  }

  lemma CloseIsFree(s: Stmt)
    requires IsChannelClose(s)
    ensures SpawnFreeStmt(s)
  {
  }

  /** Behind the last launch that the walk sees, the first statement that is a close stands behind
      `last`, at c or before. */
  ghost predicate CloseBetween(stmts: seq<Stmt>, last: int, c: nat) {
    exists l, k :: IsLastLaunch(stmts, l) && l < k && last < k <= c && ClosesFirst(stmts, l, k)
  }

  predicate ClosesFirst(stmts: seq<Stmt>, l: int, k: int) {
    0 <= k < |stmts| && IsChannelClose(stmts[k]) && forall j :: 0 <= j < k && l < j ==> !IsChannelClose(stmts[j])
  }

  /** A statement behind the last one that holds a spawn, whatever is in it, runs with all tasks
      finished, in every interleaving, if and only if the first close behind the last launch that
      the walk sees stands between the two, or is the statement itself. */
  lemma StatementIsJoinedExactly(sc: Scope, last: int, c: nat)
    requires sc.Placed() && LastSpawn(sc, last) && last < c < |sc.stmts|
    ensures JoinedAt(sc, c) <==> CloseBetween(sc.stmts, last, c)
  {
    if CloseBetween(sc.stmts, last, c) {
      var l, k :| IsLastLaunch(sc.stmts, l) && l < k && last < k <= c && ClosesFirst(sc.stmts, l, k);
      assert IsJoinIndex(sc.stmts, k);
      JoinIndexIsUnique(sc.stmts, k, sc.join);
      ClearIsJoined(sc, c);
    } else {
      if last < sc.join <= c {
        var l :| IsLastLaunch(sc.stmts, l) && l < sc.join && forall k :: l < k < sc.join ==> !IsChannelClose(sc.stmts[k]);
        assert ClosesFirst(sc.stmts, l, sc.join);
      }
      if sc.join >= 0 { CloseIsFree(sc.stmts[sc.join]); }
      var moves := StillRunning(sc, last, c);
      RunningIsNotJoined(sc, c, moves);
    }
  }

  /** The first close behind the last statement that holds a spawn runs with all tasks finished, in
      every interleaving, if and only if it is the first behind the last launch that the walk sees;
      which it is when the walk sees that spawn. */
  lemma FanInIsJoinedExactly(sc: Scope, c: nat)
    requires sc.Placed() && IsFanIn(sc, c)
    ensures JoinedAt(sc, c) <==>
            exists l :: IsLastLaunch(sc.stmts, l) && l < c && forall k :: l < k < c ==> !IsChannelClose(sc.stmts[k])
    ensures (forall last :: LastSpawn(sc, last) ==> StmtLaunches(sc.stmts[last])) ==> JoinedAt(sc, c)
  {
    var last :| LastSpawn(sc, last) && last < c && forall k :: last < k < c ==> !IsChannelClose(sc.stmts[k]);
    StatementIsJoinedExactly(sc, last, c);
    if CloseBetween(sc.stmts, last, c) {
      var l, k :| IsLastLaunch(sc.stmts, l) && l < k && last < k <= c && ClosesFirst(sc.stmts, l, k);
      assert k == c;
    }
    if l :| IsLastLaunch(sc.stmts, l) && l < c && forall k :: l < k < c ==> !IsChannelClose(sc.stmts[k]) {
      assert ClosesFirst(sc.stmts, l, c);
    }
    if StmtLaunches(sc.stmts[last]) {
      forall k | last < k < |sc.stmts| ensures !StmtLaunches(sc.stmts[k]) {
        assert sc.Free(k);
        if StmtLaunches(sc.stmts[k]) { SeenIsThere(sc.stmts[k]); }
      }
      assert IsLastLaunch(sc.stmts, last);
    }
  }

  /** `spawn { … }; if c { ch.close() }`: the close is no statement of the scope, so the join goes to
      the end, and the close runs beside the goroutine. */
  lemma NestedCloseEscapes()
    ensures var sc := Scope([ExprStmt(Spawn), CloseInBranch()], None, -1);
            sc.Placed() && LastSpawn(sc, 0) && !JoinedAt(sc, 1)
  {
    var sc := Scope([ExprStmt(Spawn), CloseInBranch()], None, -1);
    assert SpawnFreeBlock(Then(ExprStmt(Close("ch")), End(None)));
    assert LastSpawn(sc, 0);
    StatementIsJoinedExactly(sc, 0, 1);
  }

  /** `if c { ch.close() }`. */
  function CloseInBranch(): Stmt { IfStmt(Atom, Then(ExprStmt(Close("ch")), End(None)), None) }

  /** `f(if c { spawn { … }; 1 } else { 0 }); ch.close()`: the walk sees no spawn, so the join goes
      to the end, and the close runs beside the goroutine. */
  lemma HiddenSpawnEscapes()
    ensures var sc := Scope([SpawnInOperand(), ExprStmt(Close("ch"))], None, -1);
            sc.Placed() && IsFanIn(sc, 1) && !JoinedAt(sc, 1)
  {
    var sc := Scope([SpawnInOperand(), ExprStmt(Close("ch"))], None, -1);
    OperandSpawnIsHidden();
    CanLaunchExactly(SpawnInOperand());
    assert LastSpawn(sc, 0);
    FanInIsJoinedExactly(sc, 1);
  }

  /** A scope whose value is `if c { spawn { … }; 1 } else { 0 }`: the value is emitted behind the
      join, and its goroutine is left running. */
  lemma TrailingValueEscapes()
    ensures var sc := Scope([], Some(SpawnInBranch()), -1);
            sc.Placed() && !JoinedAt(sc, sc.JoinAt())
  {
    var sc := Scope([], Some(SpawnInBranch()), -1);
    assert !SpawnFreeStmt(ExprStmt(Spawn));
    assert !SpawnFreeBlock(SpawnInBranch().thn);
    assert !sc.Free(0);
    JoinCoversExactly(sc);
  }
}
