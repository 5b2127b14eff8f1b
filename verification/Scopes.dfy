/** Scopes (internal/ast/spawn.go, internal/codegen/concurrency.go): where the join of a scope
    is placed, and what it guarantees of every interleaving of the scope and its tasks. */
module Scopes {
  import opened Wrappers
  import opened Groups

  // ---------------------------------------------------------------- syntax

  datatype Expr =
    | Atom
    | Close(ch: string)                           // `ch.close()`
    | Spawn
    | Paren(inner: Expr)
    | BlockExpr(body: Block)
    | IfExpr(cond: Expr, thn: Block, els: Option<Expr>)   // the else of an if is a block or an if
    | MatchExpr(on: Expr, arms: Exprs)
    | ScopeExpr(body: Block)
    | Nested(parts: Exprs)                        // calls, operators, literals: operands as values

  datatype Exprs = Nil | Cons(head: Expr, tail: Exprs)

  datatype Stmt =
    | ExprStmt(e: Expr)
    | Let(value: Option<Expr>)
    | Assign(target: Expr, value: Option<Expr>)
    | Loop(from: Expr, body: Block)
    | IfStmt(cond: Expr, thn: Block, els: Option<Expr>)
    | Select(comms: Exprs, cases: Blocks)        // the operands of the communications, and the bodies
    | Other

  datatype Block = End(trailing: Option<Expr>) | Then(s: Stmt, rest: Block)
  datatype Blocks = NoBlocks | Blocks(first: Block, others: Blocks)

  // ---------------------------------------------------------------- the walk (internal/ast/spawn.go)

  predicate StmtLaunches(s: Stmt)
    decreases s, 1
  {
    match s
    case ExprStmt(e) => ExprLaunches(e)
    case Let(v) => v.Some? && ExprLaunches(v.value)
    case Assign(_, v) => v.Some? && ExprLaunches(v.value)
    case Loop(_, body) => BlockLaunches(body)
    case IfStmt(_, thn, els) => BlockLaunches(thn) || (els.Some? && ElseLaunches(els.value))
    case Select(_, cases) => AnyLaunches(cases)
    case Other => false
  }

  predicate ElseLaunches(e: Expr)
    decreases e, 2
  {
    (e.BlockExpr? || e.IfExpr?) && ExprLaunches(e)
  }

  predicate AnyLaunches(bs: Blocks)
    decreases bs, 0
  {
    bs.Blocks? && (BlockLaunches(bs.first) || AnyLaunches(bs.others))
  }

  predicate BlockLaunches(b: Block)
    decreases b, 0
  {
    match b
    case End(e) => e.Some? && ExprLaunches(e.value)
    case Then(s, rest) => StmtLaunches(s) || BlockLaunches(rest)
  }

  predicate ArmLaunches(es: Exprs)
    decreases es, 0
  {
    es.Cons? && (ExprLaunches(es.head) || ArmLaunches(es.tail))
  }

  predicate ExprLaunches(e: Expr)
    decreases e, 1
  {
    match e
    case Spawn => true
    case Paren(inner) => ExprLaunches(inner)
    case BlockExpr(body) => BlockLaunches(body)
    case IfExpr(_, thn, els) => BlockLaunches(thn) || (els.Some? && ElseLaunches(els.value))
    case MatchExpr(_, arms) => ArmLaunches(arms)
    case _ => false
  }

  // ---------------------------------------------------------------- runs

  /** A run: `Stop` has left early, or does nothing; `Fire` launches a task; `Pick` takes a
      branch; `Both` goes on; `Scoped` is a nested scope, whose launches are its own. */
  datatype Run = Stop | Fire | Sub(of: Run) | Pick(k: nat, of: Run) | Both(first: Run, second: Run) | Scoped(of: Run)

  predicate Fires(r: Run) {
    match r
    case Fire => true
    case Sub(q) => Fires(q)
    case Pick(_, q) => Fires(q)
    case Both(q, q') => Fires(q) || Fires(q')
    case _ => false
  }

  predicate IsRunExpr(e: Expr, r: Run)
    decreases e, 1
  {
    match e
    case Spawn => r.Fire?
    case Paren(inner) => r.Sub? && IsRunExpr(inner, r.of)
    case BlockExpr(body) => r.Sub? && IsRunBlock(body, r.of)
    case ScopeExpr(body) => r.Scoped? && IsRunBlock(body, r.of)
    case IfExpr(cond, thn, els) => r.Both? && IsRunExpr(cond, r.first) && (r.second.Stop? ||
        (r.second.Pick? && if r.second.k == 0 then IsRunBlock(thn, r.second.of) else IsRunElse(els, r.second.of)))
    case MatchExpr(on, arms) => r.Both? && IsRunExpr(on, r.first) && (r.second.Stop? ||
        (r.second.Pick? && IsRunArm(arms, r.second.k, r.second.of)))
    case Nested(parts) => IsRunParts(parts, r)
    case _ => r.Stop?
  }

  predicate IsRunElse(els: Option<Expr>, r: Run)
    decreases els, 0
  {
    if els.Some? && (els.value.BlockExpr? || els.value.IfExpr?) then IsRunExpr(els.value, r) else r.Stop?
  }

  predicate IsRunArm(es: Exprs, k: nat, r: Run)
    decreases es, 0
  {
    if es.Nil? then r.Stop? else if k == 0 then IsRunExpr(es.head, r) else IsRunArm(es.tail, k - 1, r)
  }

  predicate IsRunParts(es: Exprs, r: Run)
    decreases es, 0
  {
    r.Stop? || (es.Cons? && r.Both? && IsRunExpr(es.head, r.first) && IsRunParts(es.tail, r.second))
  }

  predicate IsRunBlock(b: Block, r: Run)
    decreases b, 0
  {
    r.Stop? ||
    match b
    case End(e) => e.Some? && r.Sub? && IsRunExpr(e.value, r.of)
    case Then(s, rest) => r.Both? && IsRunStmt(s, r.first) && IsRunBlock(rest, r.second)
  }

  predicate IsRunLoop(b: Block, r: Run)
    decreases b, 1, r
  {
    r.Stop? || (r.Both? && IsRunBlock(b, r.first) && IsRunLoop(b, r.second))
  }

  predicate IsRunCase(bs: Blocks, k: nat, r: Run)
    decreases bs, 0
  {
    if bs.NoBlocks? then r.Stop? else if k == 0 then IsRunBlock(bs.first, r) else IsRunCase(bs.others, k - 1, r)
  }

  predicate IsRunValue(v: Option<Expr>, r: Run)
    decreases v, 0
  {
    if v.Some? then IsRunExpr(v.value, r) else r.Stop?
  }

  predicate IsRunStmt(s: Stmt, r: Run)
    decreases s, 1
  {
    match s
    case ExprStmt(e) => IsRunExpr(e, r)
    case Let(v) => IsRunValue(v, r)
    case Assign(t, v) => r.Both? && IsRunExpr(t, r.first) && IsRunValue(v, r.second)
    case Loop(from, body) => r.Both? && IsRunExpr(from, r.first) && IsRunLoop(body, r.second)
    case IfStmt(cond, thn, els) => r.Both? && IsRunExpr(cond, r.first) && (r.second.Stop? ||
        (r.second.Pick? && if r.second.k == 0 then IsRunBlock(thn, r.second.of) else IsRunElse(els, r.second.of)))
    case Select(comms, cases) => r.Both? && IsRunParts(comms, r.first) && (r.second.Stop? ||
        (r.second.Pick? && IsRunCase(cases, r.second.k, r.second.of)))
    case Other => r.Stop?
  }

  ghost predicate CanLaunch(s: Stmt) { exists r :: IsRunStmt(s, r) && Fires(r) }
  ghost predicate CanLaunchExpr(e: Expr) { exists r :: IsRunExpr(e, r) && Fires(r) }

  // ---------------------------------------------------------------- what the walk does not see

  /** No spawn of this scope anywhere in e. */
  predicate SpawnFree(e: Expr)
    decreases e, 1
  {
    match e
    case Spawn => false
    case Paren(inner) => SpawnFree(inner)
    case BlockExpr(body) => SpawnFreeBlock(body)
    case IfExpr(cond, thn, els) => SpawnFree(cond) && SpawnFreeBlock(thn) && SpawnFreeElse(els)
    case MatchExpr(on, arms) => SpawnFree(on) && SpawnFreeAll(arms)
    case Nested(parts) => SpawnFreeAll(parts)
    case _ => true
  }

  predicate SpawnFreeElse(els: Option<Expr>)
    decreases els, 0
  {
    els.Some? && (els.value.BlockExpr? || els.value.IfExpr?) ==> SpawnFree(els.value)
  }

  predicate SpawnFreeAll(es: Exprs)
    decreases es, 0
  {
    es.Cons? ==> SpawnFree(es.head) && SpawnFreeAll(es.tail)
  }

  predicate SpawnFreeBlock(b: Block)
    decreases b, 0
  {
    match b
    case End(e) => e.Some? ==> SpawnFree(e.value)
    case Then(s, rest) => SpawnFreeStmt(s) && SpawnFreeBlock(rest)
  }

  predicate SpawnFreeCases(bs: Blocks)
    decreases bs, 0
  {
    bs.Blocks? ==> SpawnFreeBlock(bs.first) && SpawnFreeCases(bs.others)
  }

  predicate SpawnFreeStmt(s: Stmt)
    decreases s, 1
  {
    match s
    case ExprStmt(e) => SpawnFree(e)
    case Let(v) => v.Some? ==> SpawnFree(v.value)
    case Assign(t, v) => SpawnFree(t) && (v.Some? ==> SpawnFree(v.value))
    case Loop(from, body) => SpawnFree(from) && SpawnFreeBlock(body)
    case IfStmt(cond, thn, els) => SpawnFree(cond) && SpawnFreeBlock(thn) && SpawnFreeElse(els)
    case Select(comms, cases) => SpawnFreeAll(comms) && SpawnFreeCases(cases)
    case Other => true
  }

  /** s without what the walk does not look into: operands, conditions, subjects, assignment targets, loop
      heads and communications are blank. */
  function Shown(s: Stmt): Stmt
    decreases s, 1
  {
    match s
    case ExprStmt(e) => ExprStmt(ShownExpr(e))
    case Let(v) => Let(ShownValue(v))
    case Assign(_, v) => Assign(Atom, ShownValue(v))
    case Loop(_, body) => Loop(Atom, ShownBlock(body))
    case IfStmt(_, thn, els) => IfStmt(Atom, ShownBlock(thn), ShownValue(els))
    case Select(_, cases) => Select(Nil, ShownCases(cases))
    case Other => Other
  }

  function ShownExpr(e: Expr): Expr
    decreases e, 1
  {
    match e
    case Paren(inner) => Paren(ShownExpr(inner))
    case BlockExpr(body) => BlockExpr(ShownBlock(body))
    case IfExpr(_, thn, els) => IfExpr(Atom, ShownBlock(thn), ShownValue(els))
    case MatchExpr(_, arms) => MatchExpr(Atom, ShownArms(arms))
    case Nested(_) => Nested(Nil)
    case _ => e
  }

  function ShownValue(v: Option<Expr>): Option<Expr>
    decreases v, 0
  {
    match v case Some(e) => Some(ShownExpr(e)) case None => None
  }

  function ShownArms(es: Exprs): Exprs
    decreases es, 0
  {
    match es case Nil => Nil case Cons(e, rest) => Cons(ShownExpr(e), ShownArms(rest))
  }

  function ShownBlock(b: Block): Block
    decreases b, 0
  {
    match b case End(v) => End(ShownValue(v)) case Then(s, rest) => Then(Shown(s), ShownBlock(rest))
  }

  function ShownCases(bs: Blocks): Blocks
    decreases bs, 0
  {
    match bs case NoBlocks => NoBlocks case Blocks(b, rest) => Blocks(ShownBlock(b), ShownCases(rest))
  }

  /** The walk sees a spawn of s if and only if one is left when the rest is blank. */
  lemma {:induction false} WalkSeesExactly(s: Stmt)
    ensures StmtLaunches(s) <==> !SpawnFreeStmt(Shown(s))
    decreases s, 1
  {
    match s
    case ExprStmt(e) => WalkSeesExpr(e);
    case Let(v) => if v.Some? { WalkSeesExpr(v.value); }
    case Assign(_, v) => if v.Some? { WalkSeesExpr(v.value); }
    case Loop(_, body) => WalkSeesBlock(body);
    case IfStmt(_, thn, els) =>
      WalkSeesBlock(thn);
      if els.Some? { WalkSeesExpr(els.value); }
    case Select(_, cases) => WalkSeesCases(cases);
    case Other =>
  }

  lemma {:induction false} WalkSeesExpr(e: Expr)
    ensures ExprLaunches(e) <==> !SpawnFree(ShownExpr(e))
    decreases e, 1
  {
    match e
    case Paren(inner) => WalkSeesExpr(inner);
    case BlockExpr(body) => WalkSeesBlock(body);
    case IfExpr(_, thn, els) =>
      WalkSeesBlock(thn);
      if els.Some? { WalkSeesExpr(els.value); }
    case MatchExpr(_, arms) => WalkSeesArms(arms);
    case _ =>
  }

  lemma {:induction false} WalkSeesArms(es: Exprs)
    ensures ArmLaunches(es) <==> !SpawnFreeAll(ShownArms(es))
    decreases es, 0
  {
    if es.Cons? {
      WalkSeesExpr(es.head);
      WalkSeesArms(es.tail);
    }
  }

  lemma {:induction false} WalkSeesBlock(b: Block)
    ensures BlockLaunches(b) <==> !SpawnFreeBlock(ShownBlock(b))
    decreases b, 0
  {
    match b
    case End(v) => if v.Some? { WalkSeesExpr(v.value); }
    case Then(s, rest) =>
      WalkSeesExactly(s);
      WalkSeesBlock(rest);
  }

  lemma {:induction false} WalkSeesCases(bs: Blocks)
    ensures AnyLaunches(bs) <==> !SpawnFreeCases(ShownCases(bs))
    decreases bs, 0
  {
    if bs.Blocks? {
      WalkSeesBlock(bs.first);
      WalkSeesCases(bs.others);
    }
  }

  /** Where s holds a spawn, one is in the open. */
  predicate InTheOpen(s: Stmt) { SpawnFreeStmt(s) || !SpawnFreeStmt(Shown(s)) }

  lemma {:induction false} FreeExprNeverFires(e: Expr, r: Run)
    requires SpawnFree(e) && IsRunExpr(e, r)
    ensures !Fires(r)
    decreases e, 1
  {
    match e
    case Paren(inner) => FreeExprNeverFires(inner, r.of);
    case BlockExpr(body) => FreeBlockNeverFires(body, r.of);
    case IfExpr(cond, thn, els) =>
      FreeExprNeverFires(cond, r.first);
      if r.second.Pick? {
        if r.second.k == 0 { FreeBlockNeverFires(thn, r.second.of); } else { FreeElseNeverFires(els, r.second.of); }
      }
    case MatchExpr(on, arms) =>
      FreeExprNeverFires(on, r.first);
      if r.second.Pick? { FreeArmNeverFires(arms, r.second.k, r.second.of); }
    case Nested(parts) => FreePartsNeverFire(parts, r);
    case Atom =>
    case Close(_) =>
    case ScopeExpr(_) =>
  }

  lemma {:induction false} FreeElseNeverFires(els: Option<Expr>, r: Run)
    requires SpawnFreeElse(els) && IsRunElse(els, r)
    ensures !Fires(r)
    decreases els, 0
  {
    if els.Some? && (els.value.BlockExpr? || els.value.IfExpr?) { FreeExprNeverFires(els.value, r); }
  }

  lemma {:induction false} FreeArmNeverFires(es: Exprs, k: nat, r: Run)
    requires SpawnFreeAll(es) && IsRunArm(es, k, r)
    ensures !Fires(r)
    decreases es, 0
  {
    if es.Cons? {
      if k == 0 { FreeExprNeverFires(es.head, r); } else { FreeArmNeverFires(es.tail, k - 1, r); }
    }
  }

  lemma {:induction false} FreePartsNeverFire(es: Exprs, r: Run)
    requires SpawnFreeAll(es) && IsRunParts(es, r)
    ensures !Fires(r)
    decreases es, 0
  {
    if !r.Stop? {
      FreeExprNeverFires(es.head, r.first);
      FreePartsNeverFire(es.tail, r.second);
    }
  }

  lemma {:induction false} FreeBlockNeverFires(b: Block, r: Run)
    requires SpawnFreeBlock(b) && IsRunBlock(b, r)
    ensures !Fires(r)
    decreases b, 0
  {
    if !r.Stop? {
      match b
      case End(e) => FreeExprNeverFires(e.value, r.of);
      case Then(s, rest) => FreeStmtNeverFires(s, r.first); FreeBlockNeverFires(rest, r.second);
    }
  }

  lemma {:induction false} FreeLoopNeverFires(b: Block, r: Run)
    requires SpawnFreeBlock(b) && IsRunLoop(b, r)
    ensures !Fires(r)
    decreases b, 1, r
  {
    if !r.Stop? {
      FreeBlockNeverFires(b, r.first);
      FreeLoopNeverFires(b, r.second);
    }
  }

  lemma {:induction false} FreeCaseNeverFires(bs: Blocks, k: nat, r: Run)
    requires SpawnFreeCases(bs) && IsRunCase(bs, k, r)
    ensures !Fires(r)
    decreases bs, 0
  {
    if bs.Blocks? {
      if k == 0 { FreeBlockNeverFires(bs.first, r); } else { FreeCaseNeverFires(bs.others, k - 1, r); }
    }
  }

  lemma {:induction false} FreeStmtNeverFires(s: Stmt, r: Run)
    requires SpawnFreeStmt(s) && IsRunStmt(s, r)
    ensures !Fires(r)
    decreases s, 1
  {
    match s
    case ExprStmt(e) => FreeExprNeverFires(e, r);
    case Let(v) => if v.Some? { FreeExprNeverFires(v.value, r); }
    case Assign(t, v) =>
      FreeExprNeverFires(t, r.first);
      if v.Some? { FreeExprNeverFires(v.value, r.second); }
    case Loop(from, body) =>
      FreeExprNeverFires(from, r.first);
      FreeLoopNeverFires(body, r.second);
    case IfStmt(cond, thn, els) =>
      FreeExprNeverFires(cond, r.first);
      if r.second.Pick? {
        if r.second.k == 0 { FreeBlockNeverFires(thn, r.second.of); } else { FreeElseNeverFires(els, r.second.of); }
      }
    case Select(comms, cases) =>
      FreePartsNeverFire(comms, r.first);
      if r.second.Pick? { FreeCaseNeverFires(cases, r.second.k, r.second.of); }
    case Other =>
  }

  // ---------------------------------------------------------------- what is there can happen

  /** A run of e, launching if e holds a spawn, and in any case if the walk says so. */
  lemma {:induction false} ExprRun(e: Expr) returns (r: Run)
    ensures IsRunExpr(e, r) && (ExprLaunches(e) || !SpawnFree(e) ==> Fires(r))
    decreases e, 1
  {
    match e
    case Spawn => r := Fire;
    case Paren(inner) =>
      r := ExprRun(inner);
      r := Sub(r);
    case BlockExpr(body) =>
      r := BlockRun(body);
      r := Sub(r);
    case ScopeExpr(_) => r := Scoped(Stop);
    case IfExpr(cond, thn, els) =>
      var first := ExprRun(cond);
      var q := BlockRun(thn);
      var q' := ElseRun(els);
      r := Both(first, if Fires(q) then Pick(0, q) else Pick(1, q'));
    case MatchExpr(on, arms) =>
      var first := ExprRun(on);
      var k, q := ArmRun(arms);
      r := Both(first, Pick(k, q));
    case Nested(parts) => r := PartsRun(parts);
    case _ => r := Stop;
  }

  lemma {:induction false} ElseRun(els: Option<Expr>) returns (r: Run)
    ensures IsRunElse(els, r) && ((els.Some? && ElseLaunches(els.value)) || !SpawnFreeElse(els) ==> Fires(r))
    decreases els, 3
  {
    if els.Some? && (els.value.BlockExpr? || els.value.IfExpr?) { r := ExprRun(els.value); } else { r := Stop; }
  }

  lemma {:induction false} ArmRun(es: Exprs) returns (k: nat, r: Run)
    ensures IsRunArm(es, k, r) && (ArmLaunches(es) || !SpawnFreeAll(es) ==> Fires(r))
    decreases es, 0
  {
    k, r := 0, Stop;
    if es.Cons? {
      r := ExprRun(es.head);
      if !Fires(r) {
        k, r := ArmRun(es.tail);
        k := k + 1;
      }
    }
  }

  lemma {:induction false} PartsRun(es: Exprs) returns (r: Run)
    ensures IsRunParts(es, r) && (!SpawnFreeAll(es) ==> Fires(r))
    decreases es, 0
  {
    r := Stop;
    if es.Cons? {
      var first := ExprRun(es.head);
      r := PartsRun(es.tail);
      r := Both(first, r);
    }
  }

  lemma {:induction false} BlockRun(b: Block) returns (r: Run)
    ensures IsRunBlock(b, r) && (BlockLaunches(b) || !SpawnFreeBlock(b) ==> Fires(r))
    decreases b, 0
  {
    match b
    case End(None) => r := Stop;
    case End(Some(e)) =>
      r := ExprRun(e);
      r := Sub(r);
    case Then(s, rest) =>
      r := StmtRun(s);
      var q := BlockRun(rest);
      r := Both(r, q);
  }

  lemma {:induction false} CaseRun(bs: Blocks) returns (k: nat, r: Run)
    ensures IsRunCase(bs, k, r) && (AnyLaunches(bs) || !SpawnFreeCases(bs) ==> Fires(r))
    decreases bs, 0
  {
    k, r := 0, Stop;
    if bs.Blocks? {
      r := BlockRun(bs.first);
      if !Fires(r) {
        k, r := CaseRun(bs.others);
        k := k + 1;
      }
    }
  }

  lemma {:induction false} StmtRun(s: Stmt) returns (r: Run)
    ensures IsRunStmt(s, r) && (StmtLaunches(s) || !SpawnFreeStmt(s) ==> Fires(r))
    decreases s, 1
  {
    match s
    case ExprStmt(e) => r := ExprRun(e);
    case Let(None) => r := Stop;
    case Let(Some(v)) => r := ExprRun(v);
    case Assign(t, v) =>
      r := ExprRun(t);
      var q := Stop;
      if v.Some? { q := ExprRun(v.value); }
      r := Both(r, q);
    case Loop(from, body) =>
      r := ExprRun(from);
      var q := BlockRun(body);
      assert IsRunLoop(body, Both(q, Stop));
      r := Both(r, Both(q, Stop));
    case IfStmt(cond, thn, els) =>
      var first := ExprRun(cond);
      var q := BlockRun(thn);
      var q' := ElseRun(els);
      r := Both(first, if Fires(q) then Pick(0, q) else Pick(1, q'));
    case Select(comms, cases) =>
      var first := PartsRun(comms);
      var k, q := CaseRun(cases);
      r := Both(first, Pick(k, q));
    case Other => r := Stop;
  }

  /** A statement can launch exactly when there is a spawn in it. */
  lemma CanLaunchExactly(s: Stmt)
    ensures CanLaunch(s) <==> !SpawnFreeStmt(s)
    ensures StmtLaunches(s) ==> CanLaunch(s)
  {
    var r := StmtRun(s);
    if SpawnFreeStmt(s) {
      forall q | IsRunStmt(s, q) ensures !Fires(q) { FreeStmtNeverFires(s, q); }
    }
  }

  lemma CanLaunchExprExactly(e: Expr)
    ensures CanLaunchExpr(e) <==> !SpawnFree(e)
  {
    var r := ExprRun(e);
    if SpawnFree(e) {
      forall q | IsRunExpr(e, q) ensures !Fires(q) { FreeExprNeverFires(e, q); }
    }
  }

  /** What the walk sees can happen, and it sees exactly what can happen if and only if no
      spawn hides from it. */
  lemma WalkIsExact(s: Stmt)
    ensures StmtLaunches(s) ==> CanLaunch(s)
    ensures (StmtLaunches(s) <==> CanLaunch(s)) <==> InTheOpen(s)
  {
    WalkSeesExactly(s);
    CanLaunchExactly(s);
  }

  /** `f(if c { spawn { … }; 1 } else { 0 })`. */
  function SpawnInOperand(): Stmt { ExprStmt(Nested(Cons(SpawnInBranch(), Nil))) }

  /** `if c { spawn { … }; 1 } else { 0 }`. */
  function SpawnInBranch(): Expr {
    IfExpr(Atom, Then(ExprStmt(Spawn), End(Some(Atom))), Some(BlockExpr(End(Some(Atom)))))
  }

  /** A spawn in an operand launches, and is not seen. */
  lemma OperandSpawnIsHidden()
    ensures CanLaunch(SpawnInOperand()) && !StmtLaunches(SpawnInOperand())
  {
    assert !SpawnFreeStmt(ExprStmt(Spawn));
    assert !SpawnFreeBlock(SpawnInBranch().thn);
    assert !SpawnFree(SpawnInBranch());
    CanLaunchExactly(SpawnInOperand());
  }
}
