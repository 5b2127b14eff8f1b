/** The statement generator as the code runs it: one output buffer, one stack of loop frames,
    and a switch depth that is counted up and down (internal/codegen/labeled_break.go, stmt.go,
    tail.go, match.go, catch.go). Every method writes what the lowering says. */
module StatementGenerator {
  import opened Wrappers
  import opened Patterns
  import opened Lowering
  import LoweringDomain
  import LoweringProofs
  import TailProofs

  /** The code of arm k of a match, as a statement or in tail position. */
  function ArmCode(n: Node, k: nat, tail: bool, f: Frame, variants: Variants): Option<seq<GoStmt>>
    requires n.Match? && k < |n.arms|
  {
    if tail then LowerTail(n.arms[k].body, f, variants) else Lower(n.arms[k].body, f, variants)
  }

  function Clauses(n: Node, i: nat, heads: seq<(Test, seq<Bind>)>, tail: bool, f: Frame, variants: Variants): Option<seq<GoCase>>
    requires n.Match? && i <= |n.arms| == |heads|
  {
    if tail then LowerArmTails(n, i, heads, f, variants) else LowerArmBodies(n, i, heads, f, variants)
  }

  predicate IsClause(n: Node, k: nat, head: (Test, seq<Bind>), tail: bool, f: Frame, variants: Variants, c: GoCase)
    requires n.Match? && k < |n.arms|
  {
    ArmCode(n, k, tail, f, variants) == Some(c.body) && c.test == head.0 && c.binds == head.1
  }

  /** One clause written for each arm is the list of clauses. */
  lemma {:induction false} ClausesFrom(
    n: Node, i: nat, heads: seq<(Test, seq<Bind>)>, tail: bool, f: Frame, variants: Variants, cases: seq<GoCase>)
    requires n.Match? && i <= |n.arms| == |heads| == |cases|
    requires forall k :: i <= k < |heads| ==> IsClause(n, k, heads[k], tail, f, variants, cases[k])
    ensures Clauses(n, i, heads, tail, f, variants) == Some(cases[i..])
    decreases |heads| - i
  {
    if i < |heads| {
      ClausesFrom(n, i + 1, heads, tail, f, variants, cases);
      assert cases[i..] == [cases[i]] + cases[i + 1..];
      assert IsClause(n, i, heads[i], tail, f, variants, cases[i]);
    } else {
      assert cases[i..] == [];
    }
  }

  lemma {:induction false} NoClauses(n: Node, i: nat, k: nat, heads: seq<(Test, seq<Bind>)>, tail: bool, f: Frame, variants: Variants)
    requires n.Match? && i <= k < |n.arms| == |heads| && ArmCode(n, k, tail, f, variants) == None
    ensures Clauses(n, i, heads, tail, f, variants) == None
    decreases k - i
  {
    if i < k { NoClauses(n, i + 1, k, heads, tail, f, variants); }
  }

  /** The switch of a match, without the guard after it. */
  function SwitchCode(n: Node, tail: bool, f: Frame, variants: Variants): Option<seq<GoStmt>>
    requires n.Match?
  {
    match LowerPatterns(PatternsOf(n.arms), Shape(n.on), variants)
    case None => None
    case Some(heads) =>
      match Clauses(n, 0, heads, tail, Deeper(f), variants)
      case Some(cases) => Some([GoSwitch(Ids(n.on), cases)])
      case None => None
  }

  /** Counting the switch depth up and down leaves the stack as it was. */
  lemma SameFrames(a: seq<Frame>, b: seq<Frame>)
    requires |a| == |b|
    requires a != [] ==> a[..|a| - 1] == b[..|b| - 1] && Deeper(a[|a| - 1]) == Deeper(b[|b| - 1])
    ensures a == b
  {
    if a != [] {
      assert a == a[..|a| - 1] + [a[|a| - 1]] && b == b[..|b| - 1] + [b[|b| - 1]];
      assert a[|a| - 1] == b[|b| - 1];
    }
  }

  lemma {:induction false} CasesFrom(n: Node, i: nat, f: Frame, variants: Variants, bodies: seq<GoBody>)
    requires n.Select? && i <= |n.cases| == |bodies|
    requires forall k :: i <= k < |bodies| ==> n.cases[k].Block? && LowerBody(n.cases[k].stmts, f, variants) == Some(bodies[k].code)
    ensures LowerCases(n, i, f, variants) == Some(bodies[i..])
    decreases |bodies| - i
  {
    if i < |bodies| {
      CasesFrom(n, i + 1, f, variants, bodies);
      assert bodies[i..] == [bodies[i]] + bodies[i + 1..];
    } else {
      assert bodies[i..] == [];
    }
  }

  lemma {:induction false} NoCases(n: Node, i: nat, k: nat, f: Frame, variants: Variants)
    requires n.Select? && i <= k < |n.cases| && (n.cases[k].Block? ==> LowerBody(n.cases[k].stmts, f, variants) == None)
    ensures LowerCases(n, i, f, variants) == None
    decreases k - i
  {
    if i < k { NoCases(n, i + 1, k, f, variants); }
  }

  lemma NothingBefore(code: Option<seq<GoStmt>>)
    ensures code.Some? ==> [] + code.value == code.value
  {
  }

  class Generator {
    const variants: Variants
    var loopFrames: seq<Frame>
    var b: seq<GoStmt>

    constructor (variants: Variants)
      ensures this.variants == variants && b == [] && loopFrames == [] && CurLoop() == NoLoop
    {
      this.variants, b, loopFrames := variants, [], [];
    }

    /** curLoop. */
    function CurLoop(): Frame
      reads this
    {
      if loopFrames == [] then NoLoop else loopFrames[|loopFrames| - 1]
    }

    /** The method wrote `code`, and left the frames as they were, or it failed as the lowering does. */
    twostate predicate Wrote(ok: bool, new code: Option<seq<GoStmt>>)
      reads this
    {
      && (ok <==> code.Some?)
      && (ok ==> b == old(b) + code.value && loopFrames == old(loopFrames))
    }

    method Write(s: GoStmt)
      modifies this
      ensures b == old(b) + [s] && loopFrames == old(loopFrames)
    {
      b := b + [s];
    }

    /** enterSwitch: the innermost frame is one switch deeper. */
    method EnterSwitch()
      modifies this
      ensures b == old(b) && |loopFrames| == |old(loopFrames)| && CurLoop() == Deeper(old(CurLoop()))
      ensures loopFrames != [] ==> loopFrames[..|loopFrames| - 1] == old(loopFrames)[..|loopFrames| - 1]
    {
      if loopFrames != [] {
        var top := |loopFrames| - 1;
        if loopFrames[top].InLoop? {
          loopFrames := loopFrames[top := loopFrames[top].(switchDepth := loopFrames[top].switchDepth + 1)];
        }
      }
    }

    /** exitSwitch. */
    method ExitSwitch()
      requires loopFrames != [] && CurLoop().InLoop? ==> CurLoop().switchDepth > 0
      modifies this
      ensures b == old(b) && |loopFrames| == |old(loopFrames)| && Deeper(CurLoop()) == old(CurLoop())
      ensures loopFrames != [] ==> loopFrames[..|loopFrames| - 1] == old(loopFrames)[..|loopFrames| - 1]
    {
      if loopFrames != [] {
        var top := |loopFrames| - 1;
        if loopFrames[top].InLoop? {
          loopFrames := loopFrames[top := loopFrames[top].(switchDepth := loopFrames[top].switchDepth - 1)];
        }
      }
    }

    /** emitStmt. */
    method EmitStmt(n: Node) returns (ok: bool)
      modifies this
      ensures Wrote(ok, old(Lower(n, CurLoop(), variants)))
      ensures ok <==> LoweringDomain.Emittable(n, variants)
      ensures ok ==> LoweringProofs.RunsAsStatement(n, old(CurLoop()), b[|old(b)|..], variants)
      decreases n, 5
    {
      ghost var f := CurLoop();
      LoweringDomain.LowersExactly(n, f, variants);
      ok := WriteStmt(n);
      if ok {
        assert b[|old(b)|..] == Lower(n, f, variants).value;
        LoweringProofs.StatementRuns(n, f, variants);
      }
    }

    /** Its dispatch. */
    method WriteStmt(n: Node) returns (ok: bool)
      modifies this
      ensures Wrote(ok, old(Lower(n, CurLoop(), variants)))
      decreases n, 4
    {
      ok := true;
      match n
      case Return(None) => Write(GoReturn(Void));
      case Return(Some(v)) => ok := EmitReturn(n);
      case Catch(_, _, _, _) => ok := EmitCatchPreamble(n);
      case Break => Write(GoBreak(BreakTarget(CurLoop())));
      case Continue => Write(GoContinue);
      case Match(_, _) => ok := EmitMatchSwitch(n, false);
      case Block(body) => ok := EmitBraces(body);
      case If(_, _, _, _) => ok := EmitIf(n);
      case Let(_, _) => ok := EmitLet(n);
      case Loop(_, _, _, _) => ok := EmitLoop(n);
      case Select(_, _) => ok := EmitSelect(n);
      case _ =>
        var code := SimpleStmt(n);
        ok := code.Some?;
        if ok { b := b + code.value; }
    }

    method EmitReturn(n: Node) returns (ok: bool)
      requires n.Return? && n.value.Some?
      modifies this
      ensures Wrote(ok, old(Lower(n, CurLoop(), variants)))
      decreases n, 3
    {
      var v := n.value.value;
      if v.Catch? {
        ok := EmitCatchPreamble(v);
        if ok { Write(GoReturn(PayloadOf(v.at))); }
      } else {
        var g := SimpleValue(v);
        ok := g.Some?;
        if ok { Write(GoReturn(g.value)); }
      }
    }

    /** emitLetOrVar. */
    method EmitLet(n: Node) returns (ok: bool)
      requires n.Let?
      modifies this
      ensures Wrote(ok, old(Lower(n, CurLoop(), variants)))
      decreases n, 3
    {
      if n.init.Catch? {
        ok := EmitCatchPreamble(n.init);
        if ok { Write(GoVar(n.x, PayloadOf(n.init.at))); }
      } else {
        var g := SimpleValue(n.init);
        ok := g.Some?;
        if ok { Write(GoVar(n.x, g.value)); }
      }
    }

    /** Writes the statements of a block to a buffer of their own. */
    method Nested(body: Body) returns (ok: bool, code: seq<GoStmt>)
      modifies this
      ensures ok <==> old(LowerBody(body, CurLoop(), variants)).Some?
      ensures ok ==> Some(code) == old(LowerBody(body, CurLoop(), variants)) && b == old(b) && loopFrames == old(loopFrames)
      decreases body, 1
    {
      var outer := b;
      NothingBefore(LowerBody(body, CurLoop(), variants));
      b := [];
      ok := EmitBlockBody(body);
      code, b := b, outer;
    }

    method EmitBraces(body: Body) returns (ok: bool)
      modifies this
      ensures Wrote(ok, old(Lower(Block(body), CurLoop(), variants)))
      decreases body, 2
    {
      var code;
      ok, code := Nested(body);
      if ok { Write(GoBlock(code)); }
    }

    /** emitBlockBody. */
    method EmitBlockBody(body: Body) returns (ok: bool)
      modifies this
      ensures Wrote(ok, old(LowerBody(body, CurLoop(), variants)))
      decreases body, 0
    {
      ok := true;
      match body
      case End =>
      case Value(e) => ok := EmitStmt(e);
      case Stmt(s, rest) =>
        ok := EmitStmt(s);
        if ok { ok := EmitBlockBody(rest); }
    }

    /** emitCatchPreamble. */
    method EmitCatchPreamble(n: Node) returns (ok: bool)
      requires n.Catch?
      modifies this
      ensures Wrote(ok, old(LowerCatch(n, CurLoop(), variants)))
      decreases n, 2
    {
      if !n.handler.Block? { return false; }
      var code;
      ok, code := Nested(n.handler.stmts);
      if ok { Write(GoCatch(n.at, n.subject, n.name, code)); }
    }

    /** emitIf over a statement or an expression, branch values discarded. */
    method EmitIf(n: Node) returns (ok: bool)
      requires n.If?
      modifies this
      ensures Wrote(ok, old(Lower(n, CurLoop(), variants)))
      decreases n, 3
    {
      if !n.thn.Block? { return false; }
      var thn, els;
      ok, thn := Nested(n.thn.stmts);
      if !ok { return; }
      ok, els := NestedElse(n.kind, n.els);
      if ok { Write(GoIf(n.cond, thn, els)); }
    }

    method NestedElse(kind: IfKind, els: Option<Node>) returns (ok: bool, code: seq<GoStmt>)
      modifies this
      ensures ok <==> old(LowerElse(kind, els, CurLoop(), variants)).Some?
      ensures ok ==> Some(code) == old(LowerElse(kind, els, CurLoop(), variants)) && b == old(b) && loopFrames == old(loopFrames)
      decreases els, 0
    {
      ok, code := true, [];
      if els.None? { return; }
      var e := els.value;
      if e.Block? {
        ok, code := Nested(e.stmts);
      } else if e.If? && e.kind == kind {
        var outer := b;
        NothingBefore(LowerElse(kind, els, CurLoop(), variants));
        b := [];
        ok := EmitStmt(e);
        code, b := b, outer;
      } else {
        ok := false;
      }
    }

    /** emitLoop: the label is decided by the scan, before the body is written. */
    method EmitLoop(n: Node) returns (ok: bool)
      requires n.Loop?
      modifies this
      ensures Wrote(ok, old(Lower(n, CurLoop(), variants)))
      decreases n, 3
    {
      if !n.body.Block? { return false; }
      var frames := loopFrames;
      var loopLabel := if Scan(n.body, false) then Some(n.at) else None;
      loopFrames := loopFrames + [InLoop(loopLabel, 0)];
      var code;
      ok, code := Nested(n.body.stmts);
      if !ok { return; }
      loopFrames := loopFrames[..|loopFrames| - 1];
      assert loopFrames == frames;
      Write(GoFor(loopLabel, n.head, n.name, code));
    }

    /** One arm body, in a buffer of its own. */
    method NestedArm(n: Node, i: nat, tail: bool) returns (ok: bool, code: seq<GoStmt>)
      requires n.Match? && i < |n.arms|
      modifies this
      ensures ok <==> old(ArmCode(n, i, tail, CurLoop(), variants)).Some?
      ensures ok ==> Some(code) == old(ArmCode(n, i, tail, CurLoop(), variants)) && b == old(b) && loopFrames == old(loopFrames)
      decreases n, 1
    {
      var outer := b;
      NothingBefore(ArmCode(n, i, tail, CurLoop(), variants));
      b := [];
      if tail {
        ok := EmitTailReturn(n.arms[i].body);
      } else {
        ok := EmitStmt(n.arms[i].body);
      }
      code, b := b, outer;
    }

    /** emitMatchSwitch and emitTupleMatchSwitch, around the arms. */
    method EmitMatchSwitch(n: Node, tail: bool) returns (ok: bool)
      requires n.Match?
      modifies this
      ensures Wrote(ok, old(SwitchCode(n, tail, CurLoop(), variants)))
      decreases n, 2
    {
      var heads := LowerPatterns(PatternsOf(n.arms), Shape(n.on), variants);
      if heads.None? { return false; }
      var frames, loop := loopFrames, CurLoop();
      EnterSwitch();
      var inside := loopFrames;
      var cases: seq<GoCase> := [];
      for i := 0 to |n.arms|
        invariant b == old(b) && loopFrames == inside && CurLoop() == Deeper(loop) && |cases| == i
        invariant forall k :: 0 <= k < i ==> IsClause(n, k, heads.value[k], tail, Deeper(loop), variants, cases[k])
      {
        var code;
        ok, code := NestedArm(n, i, tail);
        if !ok {
          NoClauses(n, 0, i, heads.value, tail, Deeper(loop), variants);
          return;
        }
        cases := cases + [GoCase(heads.value[i].0, heads.value[i].1, code)];
      }
      ClausesFrom(n, 0, heads.value, tail, Deeper(loop), variants, cases);
      assert cases[0..] == cases;
      ExitSwitch();
      SameFrames(loopFrames, frames);
      Write(GoSwitch(Ids(n.on), cases));
      ok := true;
    }

    method EmitSelect(n: Node) returns (ok: bool)
      requires n.Select?
      modifies this
      ensures Wrote(ok, old(Lower(n, CurLoop(), variants)))
      decreases n, 2
    {
      var frames, loop := loopFrames, CurLoop();
      EnterSwitch();
      var inside := loopFrames;
      var bodies: seq<GoBody> := [];
      for i := 0 to |n.cases|
        invariant b == old(b) && loopFrames == inside && CurLoop() == Deeper(loop) && |bodies| == i
        invariant forall k :: 0 <= k < i ==>
                    n.cases[k].Block? && LowerBody(n.cases[k].stmts, Deeper(loop), variants) == Some(bodies[k].code)
      {
        ok := n.cases[i].Block?;
        var code := [];
        if ok { ok, code := Nested(n.cases[i].stmts); }
        if !ok {
          NoCases(n, 0, i, Deeper(loop), variants);
          return;
        }
        bodies := bodies + [GoBody(code)];
      }
      CasesFrom(n, 0, Deeper(loop), variants, bodies);
      assert bodies[0..] == bodies;
      ExitSwitch();
      SameFrames(loopFrames, frames);
      Write(GoSelect(n.id, bodies));
      ok := true;
    }

    // -------------------------------------------------------------- tail position

    /** emitTailReturn. */
    method EmitTailReturn(e: Node) returns (ok: bool)
      modifies this
      ensures Wrote(ok, old(LowerTail(e, CurLoop(), variants)))
      ensures ok <==> LoweringDomain.EmittableTail(e, variants)
      ensures ok ==> TailProofs.RunsInTail(e, old(CurLoop()), b[|old(b)|..], variants)
      decreases e, 7
    {
      ghost var f := CurLoop();
      LoweringDomain.TailLowersExactly(e, f, variants);
      ok := WriteTail(e);
      if ok {
        assert b[|old(b)|..] == LowerTail(e, f, variants).value;
        TailProofs.TailRuns(e, f, variants);
      }
    }

    /** Its dispatch. */
    method WriteTail(e: Node) returns (ok: bool)
      modifies this
      ensures Wrote(ok, old(LowerTail(e, CurLoop(), variants)))
      decreases e, 6
    {
      if e.Paren? {
        ok := EmitTailReturn(e.inner);
      } else if e.Match? {
        ok := EmitMatchTail(e);
      } else if e.Catch? {
        ok := EmitCatchTail(e);
      } else if e.If? {
        ok := EmitIfTail(e);
      } else if e.Block? {
        ok := EmitBlockTail(e.stmts, e.stmts);
      } else if ExprDiverges(e) {
        ok := EmitStmt(e);
      } else {
        var g := SimpleValue(e);
        ok := g.Some?;
        if ok { Write(GoReturn(g.value)); }
      }
    }

    /** emitMatchTail. */
    method EmitMatchTail(e: Node) returns (ok: bool)
      requires e.Match?
      modifies this
      ensures Wrote(ok, old(LowerTail(e, CurLoop(), variants)))
      decreases e, 3
    {
      ok := EmitMatchSwitch(e, true);
      if ok && !MatchEmitsDefault(PatternsOf(e.arms), Shape(e.on), variants) { Write(GoUnreachable); }
    }

    /** emitMatchTail, over the two arms of a desugared catch. */
    method EmitCatchTail(e: Node) returns (ok: bool)
      requires e.Catch?
      modifies this
      ensures Wrote(ok, old(LowerTail(e, CurLoop(), variants)))
      decreases e, 3
    {
      if !e.handler.Block? { return false; }
      var frames := loopFrames;
      EnterSwitch();
      var code;
      ok, code := NestedTail(e.handler.stmts);
      if !ok { return; }
      ExitSwitch();
      SameFrames(loopFrames, frames);
      Write(GoSwitch([e.subject], [CatchOkCase(), CatchErrCase(e.name, code)]));
      Write(GoUnreachable);
    }

    /** emitIfExprTail. */
    method EmitIfTail(e: Node) returns (ok: bool)
      requires e.If?
      modifies this
      ensures Wrote(ok, old(LowerTail(e, CurLoop(), variants)))
      decreases e, 3
    {
      if e.kind.IfStmt? || !e.thn.Block? || e.els.None? { return false; }
      var thn, els;
      ok, thn := NestedTail(e.thn.stmts);
      if !ok { return; }
      ok, els := NestedTailElse(e.els.value);
      if ok { Write(GoIf(e.cond, thn, els)); }
    }

    method NestedTail(body: Body) returns (ok: bool, code: seq<GoStmt>)
      modifies this
      ensures ok <==> old(LowerTailBody(body, body, CurLoop(), variants)).Some?
      ensures ok ==> Some(code) == old(LowerTailBody(body, body, CurLoop(), variants)) && b == old(b) && loopFrames == old(loopFrames)
      decreases body, 1
    {
      var outer := b;
      NothingBefore(LowerTailBody(body, body, CurLoop(), variants));
      b := [];
      ok := EmitBlockTail(body, body);
      code, b := b, outer;
    }

    method NestedTailElse(e: Node) returns (ok: bool, code: seq<GoStmt>)
      modifies this
      ensures ok <==> old(LowerTailElse(e, CurLoop(), variants)).Some?
      ensures ok ==> Some(code) == old(LowerTailElse(e, CurLoop(), variants)) && b == old(b) && loopFrames == old(loopFrames)
      decreases e, 8
    {
      code := [];
      if e.Block? {
        ok, code := NestedTail(e.stmts);
      } else if e.If? && e.kind.IfExpr? {
        var outer := b;
        NothingBefore(LowerTailElse(e, CurLoop(), variants));
        b := [];
        ok := EmitTailReturn(e);
        code, b := b, outer;
      } else {
        ok := false;
      }
    }

    /** emitBlockTail. */
    method EmitBlockTail(body: Body, whole: Body) returns (ok: bool)
      modifies this
      ensures Wrote(ok, old(LowerTailBody(body, whole, CurLoop(), variants)))
      decreases body, 0
    {
      match body
      case End => ok := BlockDiverges(whole);
      case Value(e) => ok := EmitTailReturn(e);
      case Stmt(s, rest) =>
        ok := EmitStmt(s);
        if ok { ok := EmitBlockTail(rest, whole); }
    }

    /** emitFuncBody, in a function: no loop is open. */
    method EmitFuncBody(body: Body, isUnit: bool) returns (ok: bool)
      requires loopFrames == []
      modifies this
      ensures Wrote(ok, LowerFuncBody(body, isUnit, variants))
      ensures ok <==> LoweringDomain.EmittableFunc(body, isUnit, variants)
      ensures ok ==> TailProofs.RunsAsFunction(body, isUnit, b[|old(b)|..], variants)
    {
      LoweringDomain.FunctionLowersExactly(body, isUnit, variants);
      ok := WriteFuncBody(body, isUnit);
      if ok {
        assert b[|old(b)|..] == LowerFuncBody(body, isUnit, variants).value;
        TailProofs.FunctionRuns(body, isUnit, variants);
      }
    }

    /** Its statements, one by one. */
    method WriteFuncBody(body: Body, isUnit: bool) returns (ok: bool)
      requires loopFrames == []
      modifies this
      ensures Wrote(ok, LowerFuncBody(body, isUnit, variants))
      decreases body
    {
      match body
      case End => ok := true;
      case Value(e) =>
        if isUnit {
          ok := EmitStmt(e);
        } else {
          ok := EmitTailReturn(e);
        }
      case Stmt(s, rest) =>
        ok := EmitStmt(s);
        if ok { ok := WriteFuncBody(rest, isUnit); }
    }
  }
}
