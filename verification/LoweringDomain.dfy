/**
 Which statements, tails and function bodies lower. The predicates here go by the syntax alone:
 the forms of patterns that a clause can be written for, the operands that an expression can be
 written in place of, and the blocks that a branch, a loop, a case and a handler must have.
 */
module LoweringDomain {
  import opened Wrappers
  import opened Patterns
  import opened Lowering

  // ---------------------------------------------------------------- patterns

  /** Binds, and asks for nothing: names, `_`, and tuples and records of such. */
  predicate Binder(p: Pattern)
    decreases p, 1
  {
    match p
    case IdentPat(_) => true
    case Wildcard => true
    case ProductPat(sub) => Binders(sub)
    case _ => false
  }

  predicate Binders(ps: seq<Pattern>)
    decreases ps, 0
  {
    ps != [] ==> Binder(ps[0]) && Binders(ps[1..])
  }

  /** A variant that is declared, bare or with a binder for each field. */
  predicate WritableVariant(c: string, sub: seq<Pattern>, variants: Variants) {
    c in variants && (sub == [] || (|sub| == variants[c].arity && Binders(sub)))
  }

  /** An atom of an alternative: a literal, or a declared variant. */
  predicate WritableAtom(p: Pattern, variants: Variants) {
    p.LitPat? || (p.VariantPat? && p.name in variants) || (p.IdentPat? && p.name in variants)
  }

  /** The pattern of an arm over one value. */
  predicate WritableArm(p: Pattern, variants: Variants) {
    match p
    case Wildcard => true
    case UnitPat => true
    case LitPat(_) => true
    case IdentPat(x) => x in variants
    case VariantPat(c, sub) => WritableVariant(c, sub, variants)
    case AltPat(atoms) => forall a :: a in atoms ==> WritableAtom(a, variants)
    case _ => false
  }

  /** A component of an arm over a tuple literal. */
  predicate WritableComponent(p: Pattern, compType: string, variants: Variants) {
    match p
    case Wildcard => true
    case LitPat(_) => true
    case IdentPat(_) => true
    case VariantPat(c, sub) => WritableVariant(c, sub, variants) && (compType == "" || variants[c].owner == compType)
    case _ => false
  }

  predicate WritableTupleArm(p: Pattern, compTypes: seq<string>, variants: Variants) {
    || p.Wildcard?
    || (p.ProductPat? && |p.sub| == |compTypes| &&
        forall j :: 0 <= j < |compTypes| ==> WritableComponent(p.sub[j], compTypes[j], variants))
  }

  predicate NamesVariant(p: Pattern, variants: Variants) { p.VariantPat? || (p.IdentPat? && p.name in variants) }

  /** p, or an alternative of it. */
  predicate HasVariant(p: Pattern, variants: Variants) {
    NamesVariant(p, variants) || (p.AltPat? && exists a :: a in p.atoms && NamesVariant(a, variants))
  }

  predicate HasLiteral(p: Pattern) { p.LitPat? || (p.AltPat? && exists a :: a in p.atoms && a.LitPat?) }

  /** All arms have a clause; over one value, literals and variants do not mix. */
  predicate Writable(ps: seq<Pattern>, s: SubjectShape, variants: Variants) {
    match s
    case Single =>
      && (forall p :: p in ps ==> WritableArm(p, variants))
      && (forall p, q :: p in ps && q in ps ==> !(HasVariant(p, variants) && HasLiteral(q)))
    case Tuple(compTypes) => forall p :: p in ps ==> WritableTupleArm(p, compTypes, variants)
  }

  lemma {:induction false} BinderBinds(p: Pattern, path: Path)
    ensures BindSub(p, path).Some? <==> Binder(p)
    decreases p, 1
  {
    if p.ProductPat? { ComponentsBind(p.sub, path, 0); }
  }

  lemma {:induction false} ComponentsBind(ps: seq<Pattern>, path: Path, i: nat)
    ensures BindComponents(ps, path, i).Some? <==> Binders(ps)
    decreases ps, 0
  {
    if ps != [] {
      BinderBinds(ps[0], Component(path, i));
      ComponentsBind(ps[1..], path, i + 1);
    }
  }

  lemma {:induction false} PayloadBinds(ps: seq<Pattern>, path: Path, tag: int, i: nat)
    ensures BindPayload(ps, path, tag, i).Some? <==> Binders(ps)
  {
    if ps != [] {
      BinderBinds(ps[0], Payload(path, tag, i));
      PayloadBinds(ps[1..], path, tag, i + 1);
    }
  }

  lemma {:induction false} AtomsAreCases(atoms: seq<Pattern>, variants: Variants)
    ensures CaseValues(atoms, variants).Some? <==> forall a :: a in atoms ==> WritableAtom(a, variants)
  {
    if atoms != [] {
      AtomsAreCases(atoms[1..], variants);
      assert CaseValue(atoms[0], variants).Some? <==> WritableAtom(atoms[0], variants);
      assert forall a :: a in atoms <==> a == atoms[0] || a in atoms[1..];
    }
  }

  lemma SingleIsWritable(p: Pattern, variants: Variants)
    ensures LowerArm(p, Single, variants).Some? <==> WritableArm(p, variants)
  {
    match p
    case VariantPat(c, sub) => if c in variants { PayloadBinds(sub, Temp(0), variants[c].tag, 0); }
    case AltPat(atoms) => AtomsAreCases(atoms, variants);
    case _ =>
  }

  lemma ComponentIsWritable(p: Pattern, j: nat, compType: string, variants: Variants)
    ensures CompCond(p, j, compType, variants).Some? && CompBinds(p, j, compType, variants).Some?
            <==> WritableComponent(p, compType, variants)
  {
    match p
    case VariantPat(c, sub) => if c in variants { PayloadBinds(sub, Temp(j), variants[c].tag, 0); }
    case IdentPat(_) => BinderBinds(p, Temp(j));
    case _ =>
  }

  lemma {:induction false} ComponentsAreWritable(ps: seq<Pattern>, j: nat, compTypes: seq<string>, variants: Variants)
    requires j + |ps| == |compTypes|
    ensures TupleConds(ps, j, compTypes, variants).Some? && TupleBinds(ps, j, compTypes, variants).Some?
            <==> forall k :: 0 <= k < |ps| ==> WritableComponent(ps[k], compTypes[j + k], variants)
    decreases |ps|
  {
    if ps != [] {
      var rest := ps[1..];
      ComponentIsWritable(ps[0], j, compTypes[j], variants);
      ComponentsAreWritable(rest, j + 1, compTypes, variants);
      if forall k :: 0 <= k < |ps| ==> WritableComponent(ps[k], compTypes[j + k], variants) {
        forall k | 0 <= k < |rest| ensures WritableComponent(rest[k], compTypes[j + 1 + k], variants) {
          assert rest[k] == ps[k + 1];
        }
      }
      if forall k :: 0 <= k < |rest| ==> WritableComponent(rest[k], compTypes[j + 1 + k], variants) {
        forall k | 1 <= k < |ps| ensures WritableComponent(ps[k], compTypes[j + k], variants) {
          assert rest[k - 1] == ps[k];
        }
      }
    }
  }

  lemma TupleIsWritable(p: Pattern, compTypes: seq<string>, variants: Variants)
    ensures LowerArm(p, Tuple(compTypes), variants).Some? <==> WritableTupleArm(p, compTypes, variants)
  {
    if p.ProductPat? && |p.sub| == |compTypes| {
      ComponentsAreWritable(p.sub, 0, compTypes, variants);
      assert forall k :: 0 <= k < |p.sub| ==> compTypes[0 + k] == compTypes[k];
    }
  }

  lemma {:induction false} ArmsAreWritable(ps: seq<Pattern>, s: SubjectShape, variants: Variants)
    ensures LowerArms(ps, s, variants).Some? <==>
            forall p :: p in ps ==> if s.Single? then WritableArm(p, variants) else WritableTupleArm(p, s.compTypes, variants)
  {
    if ps != [] {
      ArmsAreWritable(ps[1..], s, variants);
      if s.Single? { SingleIsWritable(ps[0], variants); } else { TupleIsWritable(ps[0], s.compTypes, variants); }
      assert ps == [ps[0]] + ps[1..];
    }
  }

  /** A match has a switch if and only if its patterns are of those forms. */
  lemma PatternsLowerExactly(ps: seq<Pattern>, s: SubjectShape, variants: Variants)
    ensures LowerPatterns(ps, s, variants).Some? <==> Writable(ps, s, variants)
  {
    ArmsAreWritable(ps, s, variants);
    forall p | p in ps
      ensures SwitchesOnTag(p, variants) <==> HasVariant(p, variants)
      ensures SwitchesOnValue(p) <==> HasLiteral(p)
    {
    }
  }

  // ---------------------------------------------------------------- statement position

  /** An expression that is written in place. */
  predicate InPlace(n: Node) {
    match n
    case Atom(_) => true
    case Call(_, _) => true
    case Name(_) => true
    case Paren(inner) => InPlace(inner)
    case _ => false
  }

  predicate Emittable(n: Node, variants: Variants)
    decreases n, 1
  {
    match n
    case Atom(_) => true
    case Call(_, _) => true
    case Name(_) => true
    case Paren(inner) => InPlace(inner)
    case Break => true
    case Continue => true
    case Return(v) => v.Some? ==> InPlace(v.value) || (v.value.Catch? && Emittable(v.value, variants))
    case Let(_, v) => InPlace(v) || (v.Catch? && Emittable(v, variants))
    case Catch(_, _, _, handler) => handler.Block? && EmittableBody(handler.stmts, variants)
    case Match(on, arms) =>
      && Writable(PatternsOf(arms), Shape(on), variants)
      && forall i :: 0 <= i < |arms| ==> Emittable(arms[i].body, variants)
    case Block(body) => EmittableBody(body, variants)
    // without an `else`, or with a block, or with an `if` of the same form
    case If(kind, _, thn, els) =>
      && thn.Block? && EmittableBody(thn.stmts, variants)
      && (els.Some? ==> (els.value.Block? || (els.value.If? && els.value.kind == kind)) && Emittable(els.value, variants))
    case Loop(_, _, _, body) => body.Block? && EmittableBody(body.stmts, variants)
    case Select(_, cases) => forall i :: 0 <= i < |cases| ==> cases[i].Block? && Emittable(cases[i], variants)
  }

  predicate EmittableBody(b: Body, variants: Variants)
    decreases b, 0
  {
    match b
    case End => true
    case Value(e) => Emittable(e, variants)
    case Stmt(s, rest) => Emittable(s, variants) && EmittableBody(rest, variants)
  }

  lemma {:induction false} InPlaceIsSimple(n: Node)
    ensures SimpleValue(n).Some? <==> InPlace(n)
    ensures SimpleStmt(n).Some? <==> InPlace(n)
  {
    if n.Paren? { InPlaceIsSimple(n.inner); }
  }

  /** A statement lowers if and only if it is of those forms. */
  lemma {:induction false} LowersExactly(n: Node, f: Frame, variants: Variants)
    ensures Lower(n, f, variants).Some? <==> Emittable(n, variants)
    decreases n, 2
  {
    InPlaceIsSimple(n);
    match n
    case Return(v) => if v.Some? { OperandLowers(v.value, f, variants); }
    case Let(_, v) => OperandLowers(v, f, variants);
    case Catch(_, _, _, handler) => CatchLowers(n, f, variants);
    case Match(on, arms) =>
      PatternsLowerExactly(PatternsOf(arms), Shape(on), variants);
      if LowerPatterns(PatternsOf(arms), Shape(on), variants).Some? {
        ArmsLower(n, 0, LowerPatterns(PatternsOf(arms), Shape(on), variants).value, Deeper(f), variants);
      }
    case Block(body) => BodyLowers(body, f, variants);
    case If(_, _, _, _) => IfLowers(n, f, variants);
    case Loop(at, _, _, body) =>
      if body.Block? { BodyLowers(body.stmts, InLoop(if Scan(body, false) then Some(at) else None, 0), variants); }
    case Select(_, _) => CasesLower(n, 0, Deeper(f), variants);
    case _ =>
  }

  lemma {:induction false} OperandLowers(v: Node, f: Frame, variants: Variants)
    ensures SimpleValue(v).Some? <==> InPlace(v)
    ensures v.Catch? ==> (LowerCatch(v, f, variants).Some? <==> Emittable(v, variants))
    decreases v, 1
  {
    InPlaceIsSimple(v);
    if v.Catch? { CatchLowers(v, f, variants); }
  }

  lemma {:induction false} CatchLowers(n: Node, f: Frame, variants: Variants)
    requires n.Catch?
    ensures LowerCatch(n, f, variants).Some? <==> Emittable(n, variants)
    decreases n, 0
  {
    if n.handler.Block? { BodyLowers(n.handler.stmts, f, variants); }
  }

  lemma {:induction false} IfLowers(n: Node, f: Frame, variants: Variants)
    requires n.If?
    ensures Lower(n, f, variants).Some? <==> Emittable(n, variants)
    decreases n, 1
  {
    if n.thn.Block? { BodyLowers(n.thn.stmts, f, variants); }
    if n.els.Some? {
      var e := n.els.value;
      if e.Block? { BodyLowers(e.stmts, f, variants); } else { LowersExactly(e, f, variants); }
    }
  }

  lemma {:induction false} BodyLowers(b: Body, f: Frame, variants: Variants)
    ensures LowerBody(b, f, variants).Some? <==> EmittableBody(b, variants)
    decreases b, 0
  {
    match b
    case End =>
    case Value(e) => LowersExactly(e, f, variants);
    case Stmt(s, rest) => LowersExactly(s, f, variants); BodyLowers(rest, f, variants);
  }

  lemma {:induction false} ArmsLower(n: Node, i: nat, heads: seq<(Test, seq<Bind>)>, f: Frame, variants: Variants)
    requires n.Match? && i <= |n.arms| == |heads|
    ensures LowerArmBodies(n, i, heads, f, variants).Some? <==> forall k :: i <= k < |heads| ==> Emittable(n.arms[k].body, variants)
    decreases n, 1, |heads| - i
  {
    if i < |heads| {
      LowersExactly(n.arms[i].body, f, variants);
      ArmsLower(n, i + 1, heads, f, variants);
    }
  }

  lemma {:induction false} CasesLower(n: Node, i: nat, f: Frame, variants: Variants)
    requires n.Select? && i <= |n.cases|
    ensures LowerCases(n, i, f, variants).Some? <==>
            forall k :: i <= k < |n.cases| ==> n.cases[k].Block? && Emittable(n.cases[k], variants)
    decreases n, 1, |n.cases| - i
  {
    if i < |n.cases| {
      if n.cases[i].Block? { BodyLowers(n.cases[i].stmts, f, variants); }
      CasesLower(n, i + 1, f, variants);
    }
  }

  // ---------------------------------------------------------------- blocks that do not fall through

  /** The nodes in which a block, statement or expression ends: through parentheses, blocks, and
      both branches of an `if` statement; None where nothing stands at an end. */
  function EndsOfBody(b: Body): set<Option<Node>>
    decreases b, 0
  {
    match b
    case End => {None}
    case Value(e) => EndsOfExpr(e)
    case Stmt(s, End) => EndsOfStmt(s)
    case Stmt(_, rest) => EndsOfBody(rest)
  }

  function EndsOfExpr(e: Node): set<Option<Node>>
    decreases e, 1
  {
    match e
    case Paren(inner) => EndsOfExpr(inner)
    case Block(body) => EndsOfBody(body)
    case _ => {Some(e)}
  }

  function EndsOfStmt(s: Node): set<Option<Node>>
    decreases s, 2
  {
    match s
    case If(IfStmt, _, thn, els) =>
      (if thn.Block? then EndsOfBody(thn.stmts) else {None}) +
      (match els
       case Some(Block(body)) => EndsOfBody(body)
       case Some(If(IfStmt, _, _, _)) => EndsOfStmt(els.value)
       case _ => {None})
    case _ => EndsOfExpr(s)
  }

  /** `return`, `break`, `continue`, and a call spelled `panic` or `os.exit`. */
  predicate Leaves(end: Option<Node>) {
    end.Some? &&
    match end.value
    case Return(_) => true
    case Break => true
    case Continue => true
    case Call(_, c) => c == Ident("panic") || c == Member("os", "exit")
    case _ => false
  }

  /** All ends leave. */
  ghost predicate NeverThrough(ends: set<Option<Node>>) { forall end :: end in ends ==> Leaves(end) }

  lemma OneEnd(end: Option<Node>)
    ensures NeverThrough({end}) <==> Leaves(end)
  {
    assert end in {end};
  }

  lemma TwoEnds(a: set<Option<Node>>, b: set<Option<Node>>)
    ensures NeverThrough(a + b) <==> NeverThrough(a) && NeverThrough(b)
  {
    if NeverThrough(a + b) {
      forall end | end in a ensures Leaves(end) { assert end in a + b; }
      forall end | end in b ensures Leaves(end) { assert end in a + b; }
    }
  }

  /** A block is taken not to fall through if and only if all its ends leave. */
  lemma {:induction false} DivergesExactly(b: Body)
    ensures BlockDiverges(b) <==> NeverThrough(EndsOfBody(b))
    decreases b, 0
  {
    hide NeverThrough, Leaves;
    match b
    case End => OneEnd(None); assert !Leaves(None) by { NoEnd(); }
    case Value(e) => ExprDivergesExactly(e);
    case Stmt(s, End) => StmtDivergesExactly(s);
    case Stmt(_, rest) => DivergesExactly(rest);
  }

  lemma NoEnd()
    ensures !Leaves(None)
  {
  }

  lemma {:induction false} ExprDivergesExactly(e: Node)
    ensures ExprDiverges(e) <==> NeverThrough(EndsOfExpr(e))
    decreases e, 1
  {
    match e
    case Paren(inner) => ExprDivergesExactly(inner);
    case Block(body) => DivergesExactly(body);
    case _ => OneEnd(Some(e));
  }

  lemma {:induction false} StmtDivergesExactly(s: Node)
    ensures StmtDiverges(s) <==> NeverThrough(EndsOfStmt(s))
    decreases s, 2
  {
    if s.If? && s.kind.IfStmt? {
      var thn := if s.thn.Block? then EndsOfBody(s.thn.stmts) else {None};
      var els := match s.els
                 case Some(Block(body)) => EndsOfBody(body)
                 case Some(If(IfStmt, _, _, _)) => EndsOfStmt(s.els.value)
                 case _ => {None};
      TwoEnds(thn, els);
      OneEnd(None);
      if s.thn.Block? { DivergesExactly(s.thn.stmts); }
      match s.els {
        case Some(Block(body)) => DivergesExactly(body);
        case Some(If(IfStmt, _, _, _)) => StmtDivergesExactly(s.els.value);
        case _ =>
      }
    } else {
      ExprDivergesExactly(s);
    }
  }

  // ---------------------------------------------------------------- tail position

  ghost predicate EmittableTail(e: Node, variants: Variants)
    decreases e, 1
  {
    match e
    case Atom(_) => true
    case Call(_, _) => true
    case Name(_) => true
    case Break => true
    case Continue => true
    case Return(_) => Emittable(e, variants)
    case Paren(inner) => EmittableTail(inner, variants)
    case Match(on, arms) =>
      && Writable(PatternsOf(arms), Shape(on), variants)
      && forall i :: 0 <= i < |arms| ==> EmittableTail(arms[i].body, variants)
    case Catch(_, _, _, handler) => handler.Block? && EmittableEnd(handler.stmts, variants)
    // an expression, with both branches
    case If(kind, _, thn, els) =>
      && kind.IfExpr? && thn.Block? && EmittableEnd(thn.stmts, variants)
      && els.Some? && (els.value.Block? || els.value.If?) && EmittableTail(els.value, variants)
    case Block(body) => EmittableEnd(body, variants)
    case _ => false
  }

  /** A block in tail position ends in a value, or never falls through. */
  ghost predicate EmittableEnd(b: Body, variants: Variants)
    decreases b, 1
  {
    EmittableRest(b, variants) && (ValueOf(b).None? ==> NeverThrough(EndsOfBody(b)))
  }

  ghost predicate EmittableRest(b: Body, variants: Variants)
    decreases b, 0
  {
    match b
    case End => true
    case Value(e) => EmittableTail(e, variants)
    case Stmt(s, rest) => Emittable(s, variants) && EmittableRest(rest, variants)
  }

  /** The trailing expression, if any. */
  function ValueOf(b: Body): Option<Node> {
    match b
    case End => None
    case Value(e) => Some(e)
    case Stmt(_, rest) => ValueOf(rest)
  }

  /** An expression in tail position lowers if and only if it is of those forms. */
  lemma {:induction false} TailLowersExactly(e: Node, f: Frame, variants: Variants)
    ensures LowerTail(e, f, variants).Some? <==> EmittableTail(e, variants)
    decreases e, 3
  {
    match e
    case Paren(inner) => TailLowersExactly(inner, f, variants);
    case Match(on, arms) =>
      PatternsLowerExactly(PatternsOf(arms), Shape(on), variants);
      if LowerPatterns(PatternsOf(arms), Shape(on), variants).Some? {
        ArmTailsLower(e, 0, LowerPatterns(PatternsOf(arms), Shape(on), variants).value, Deeper(f), variants);
      }
    case Catch(_, _, _, handler) => if handler.Block? { EndLowersExactly(handler.stmts, Deeper(f), variants); }
    case If(_, _, _, _) => IfTailLowers(e, f, variants);
    case Block(body) => EndLowersExactly(body, f, variants);
    case _ =>
      LowersExactly(e, f, variants);
      InPlaceIsSimple(e);
  }

  lemma {:induction false} IfTailLowers(e: Node, f: Frame, variants: Variants)
    requires e.If?
    ensures LowerTail(e, f, variants).Some? <==> EmittableTail(e, variants)
    decreases e, 2
  {
    if e.thn.Block? { EndLowersExactly(e.thn.stmts, f, variants); }
    if e.els.Some? {
      var els := e.els.value;
      if els.Block? { EndLowersExactly(els.stmts, f, variants); } else { TailLowersExactly(els, f, variants); }
    }
  }

  lemma {:induction false} EndLowersExactly(b: Body, f: Frame, variants: Variants)
    ensures LowerTailBody(b, b, f, variants).Some? <==> EmittableEnd(b, variants)
    decreases b, 1
  {
    DivergesExactly(b);
    RestLowers(b, b, f, variants);
  }

  lemma {:induction false} RestLowers(b: Body, whole: Body, f: Frame, variants: Variants)
    ensures LowerTailBody(b, whole, f, variants).Some? <==>
            EmittableRest(b, variants) && (ValueOf(b).None? ==> BlockDiverges(whole))
    decreases b, 0
  {
    match b
    case End =>
    case Value(e) => TailLowersExactly(e, f, variants);
    case Stmt(s, rest) => LowersExactly(s, f, variants); RestLowers(rest, whole, f, variants);
  }

  lemma {:induction false} ArmTailsLower(n: Node, i: nat, heads: seq<(Test, seq<Bind>)>, f: Frame, variants: Variants)
    requires n.Match? && i <= |n.arms| == |heads|
    ensures LowerArmTails(n, i, heads, f, variants).Some? <==> forall k :: i <= k < |heads| ==> EmittableTail(n.arms[k].body, variants)
    decreases n, 2, |heads| - i
  {
    if i < |heads| {
      TailLowersExactly(n.arms[i].body, f, variants);
      ArmTailsLower(n, i + 1, heads, f, variants);
    }
  }

  /** A function body: statements, and the trailing expression in tail position unless the
      function returns unit. */
  ghost predicate EmittableFunc(b: Body, isUnit: bool, variants: Variants) {
    match b
    case End => true
    case Value(e) => if isUnit then Emittable(e, variants) else EmittableTail(e, variants)
    case Stmt(s, rest) => Emittable(s, variants) && EmittableFunc(rest, isUnit, variants)
  }

  /** It lowers if and only if it is of those forms. */
  lemma {:induction false} FunctionLowersExactly(b: Body, isUnit: bool, variants: Variants)
    ensures LowerFuncBody(b, isUnit, variants).Some? <==> EmittableFunc(b, isUnit, variants)
  {
    match b
    case End =>
    case Value(e) => LowersExactly(e, NoLoop, variants); TailLowersExactly(e, NoLoop, variants);
    case Stmt(s, rest) => LowersExactly(s, NoLoop, variants); FunctionLowersExactly(rest, isUnit, variants);
  }
}
