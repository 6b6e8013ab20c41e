// The code generated for an expression computes the expression.
module LuaCodeCompile {
  import opened LuaMachine
  import opened LuaCodegen
  import opened LuaCodeRuns
  import opened LuaCodeMeaning
  import opened LuaCodePlace
  import opened LuaCodeRegs
  import opened LuaCodeConds
  import opened LuaCodeBranches
  import opened LuaCodeNot
  import opened LuaCodeOperands
  import opened LuaCodeArith
  import opened LuaCodeCompare
  import opened LuaCodeAndOr

  // Everything that is promised of a compiled expression.
  ghost predicate Compiled(c: Ctx, fs: FS, x: Expr, outer: set<nat>, base: nat, fs': FS, e': Exp) {
    Ready(c, fs', e', outer, base, GoalFor(c, fs, outer, x)) && TrueConst(fs', e') && Leads(fs, fs', outer)
  }

  // ----- leaves -----

  lemma BegunMore(c: Ctx, fs: FS, k: seq<Value>, outer: set<nat>, base: nat, x: Expr)
    requires Begun(c, fs, outer, base) && fs.k <= k
    ensures Begun(c, fs.(k := k), outer, base) && GoalFor(c, fs.(k := k), outer, x) == GoalFor(c, fs, outer, x)
  {}

  lemma SimpleMeans(c: Ctx, fs: FS, v: Value, outer: set<nat>, base: nat)
    requires Begun(c, fs, outer, base) && Simple(v, fs).0.k <= c.env.k
    ensures var (fs', e') := Simple(v, fs); Compiled(c, fs, Const(v), outer, base, fs', e')
  {
    var (fs', e') := Simple(v, fs);
    assert fs' == fs.(k := fs'.k);
    BegunMore(c, fs, fs'.k, outer, base, Const(v));
    BegunFacts(c, fs, outer, base, Const(v));
    if v.Str? { assert c.env.k[e'.info] == fs'.k[e'.info] == v; }
    LeafMeans(c, fs', e', outer, base, Const(v));
  }

  // ----- goals -----

  lemma GoalOfParen(c: Ctx, fs: FS, outer: set<nat>, y: Expr)
    ensures GoalFor(c, fs, outer, Paren(y)) == GoalFor(c, fs, outer, y)
    ensures GoalFor(c, fs, outer, Not(y)) == NotGoal(GoalFor(c, fs, outer, y))
  {}

  lemma GoalOfUnary(c: Ctx, fs: FS, outer: set<nat>, op: UnOp, y: Expr)
    ensures GoalFor(c, fs, outer, Un(op, y)) == UnGoal(c.env.ops, op, GoalFor(c, fs, outer, y))
  {}

  lemma GoalOfBinary(c: Ctx, fs: FS, outer: set<nat>, op: BinOp, a: Expr, y: Expr)
    ensures var g := GoalFor(c, fs, outer, a);
            GoalFor(c, fs, outer, Bin(op, a, y)) ==
            match op
            case OprArith(o) => ArithGoal(c.env.ops, o, g, y)
            case OprAnd => AndOrGoal(c.env.ops, true, g, y)
            case OprOr => AndOrGoal(c.env.ops, false, g, y)
            case _ => BinGoal(c.env.ops, op, g, y)
  {
    var g := GoalFor(c, fs, outer, a);
    if g.Wanted? {
      var v, w := g.v, Eval(c.env.ops, y, g.r);
    }
  }

  // ----- the theorem -----

  // The expression compiled after anything that satisfies the generator's invariant, with other
  // jumps pending: its descriptor says where the value of the expression is, and the registers
  // below 'base' are those before the expression.
  lemma {:induction false} CompileMeans(c: Ctx, fs: FS, x: Expr, outer: set<nat>, base: nat)
    requires Begun(c, fs, outer, base) && Scoped(x, fs.nactvar)
    requires Compile(c.env.ops, fs, x).0.ok && Compile(c.env.ops, fs, x).0.k <= c.env.k
    ensures var (fs', e') := Compile(c.env.ops, fs, x); Compiled(c, fs, x, outer, base, fs', e')
    decreases x
  {
    match x
    case Const(v) => SimpleMeans(c, fs, v, outer, base);
    case Local(i) =>
      LeafMeans(c, fs, Exp(VLOCAL, i, 0, [], []), outer, base, x);
      BegunFacts(c, fs, outer, base, x);
    case Paren(y) =>
      CompileMeans(c, fs, y, outer, base);
      var (fs1, e) := Compile(c.env.ops, fs, y);
      ReadyVars(c, fs1, e, outer, base, GoalFor(c, fs, outer, y));
      GoalOfParen(c, fs, outer, y);
    case Not(y) =>
      CompileMeans(c, fs, y, outer, base);
      var (fs1, e) := Compile(c.env.ops, fs, y);
      NotMeans(c, fs1, e, outer, base, GoalFor(c, fs, outer, y));
      GoalOfParen(c, fs, outer, y);
      LeadsOn(fs, fs1, CodeNot(fs1, e).0, outer);
    case Un(op, y) =>
      CompileMeans(c, fs, y, outer, base);
      var (fs1, e) := Compile(c.env.ops, fs, y);
      UnaryMeans(c, fs1, e, outer, base, GoalFor(c, fs, outer, y), op);
      GoalOfUnary(c, fs, outer, op, y);
      LeadsOn(fs, fs1, PrefixUn(c.env.ops, fs1, op, e).0, outer);
    case Bin(op, a, y) =>
      CompileMeans(c, fs, a, outer, base);
      var (fs1, e1) := Compile(c.env.ops, fs, a);
      var (fs2, e1') := Infix(fs1, op, e1);
      if op.OprAnd? || op.OprOr? {
        ConditionFirst(c, fs, fs1, e1, outer, base, op, a);
        var l := if op.OprAnd? then e1'.f else e1'.t;
        CompileMeans(c, fs2, y, outer + Elems(l), base);
        ConditionSecond(c, fs, fs2, e1', outer, base, op, a, y);
      } else {
        OperandFirst(c, fs, fs1, e1, outer, base, op, a);
        CompileMeans(c, fs2, y, outer, fs2.freereg);
        OperandSecond(c, fs, fs2, e1', outer, base, op, a, y);
      }
  }

  // ----- and, or -----

  lemma ConditionFirst(c: Ctx, fs: FS, fs1: FS, e1: Exp, outer: set<nat>, base: nat, op: BinOp, a: Expr)
    requires Compiled(c, fs, a, outer, base, fs1, e1) && (op.OprAnd? || op.OprOr?)
    requires Infix(fs1, op, e1).0.ok && Infix(fs1, op, e1).0.k <= c.env.k &&
             |fs.code| <= |fs1.code| <= |Infix(fs1, op, e1).0.code|
    ensures var (fs2, e1') := Infix(fs1, op, e1); var flag := op.OprAnd?; var l := if flag then e1'.f else e1'.t;
            Tested(c, fs2, Exits(l, flag), outer, base, GoalFor(c, fs, outer, a), flag) && Leads(fs, fs2, outer) &&
            Begun(c, fs2, outer + Elems(l), base)
  {
    hide Ready, Leads, Tested, GoIf, GoIfTrue, GoIfFalse, GoalFor, Begun;
    var flag := op.OprAnd?;
    var g := GoalFor(c, fs, outer, a);
    InfixIsGoIf(fs1, op, e1);
    GoIfMeans(c, fs1, e1, outer, base, g, flag);
    var (fs2, e1') := Infix(fs1, op, e1);
    var l := if flag then e1'.f else e1'.t;
    assert Lists(e1'.t, e1'.f) == Exits(l, flag);
    LeadsOn(fs, fs1, fs2, outer);
    RightBegins(c, fs2, l, outer, base, g, flag);
  }

  lemma InfixIsGoIf(fs: FS, op: BinOp, e: Exp)
    requires op.OprAnd? || op.OprOr?
    ensures Infix(fs, op, e) == GoIf(fs, e, op.OprAnd?)
  {}

  lemma ConditionSecond(c: Ctx, fs: FS, fs2: FS, e1: Exp, outer: set<nat>, base: nat, op: BinOp, a: Expr, y: Expr)
    requires op.OprAnd? || op.OprOr?
    requires var flag := op.OprAnd?; var l := if flag then e1.f else e1.t; var (fs3, e2) := Compile(c.env.ops, fs2, y);
             Tested(c, fs2, Exits(l, flag), outer, base, GoalFor(c, fs, outer, a), flag) && Leads(fs, fs2, outer) &&
             Compiled(c, fs2, y, outer + Elems(l), base, fs3, e2) && Scoped(y, fs2.nactvar) && |fs.code| <= |fs2.code|
    ensures var (fs3, e2) := Compile(c.env.ops, fs2, y); var (fs', e') := Posfix(c.env.ops, fs3, op, e1, e2);
            Compiled(c, fs, Bin(op, a, y), outer, base, fs', e')
  {
    hide Ready, Leads, Tested, GoalFor, Compile;
    var (fs3, e2) := Compile(c.env.ops, fs2, y);
    AndOrMeans(c, fs2, e1, fs3, e2, outer, base, GoalFor(c, fs, outer, a), op, y);
    GoalOfBinary(c, fs, outer, op, a, y);
    LeadsOn(fs, fs2, Posfix(c.env.ops, fs3, op, e1, e2).0, outer);
  }

  // ----- operands -----

  // luaK_infix leaves the first operand where no later code disturbs it: in a register of its
  // own, among the constants, or as a number not yet entered anywhere.
  ghost predicate Waiting(fs: FS, e: Exp, op: BinOp) {
    (op.OprArith? && IsNumeral(e)) || exists rk: nat :: IsOperand(e, rk)
  }

  lemma OperandFirst(c: Ctx, fs: FS, fs1: FS, e1: Exp, outer: set<nat>, base: nat, op: BinOp, a: Expr)
    requires Compiled(c, fs, a, outer, base, fs1, e1) && !op.OprAnd? && !op.OprOr?
    requires Infix(fs1, op, e1).0.ok && Infix(fs1, op, e1).0.k <= c.env.k && |fs.code| <= |fs1.code|
    ensures var (fs2, e1') := Infix(fs1, op, e1);
            Ready(c, fs2, e1', outer, base, GoalFor(c, fs, outer, a)) && Waiting(fs2, e1', op) &&
            Leads(fs, fs2, outer) &&
            Begun(c, fs2, outer, fs2.freereg)
  {
    hide Ready, Leads, Exp2RK, GoalFor, Begun;
    var g := GoalFor(c, fs, outer, a);
    var (fs2, e1') := Infix(fs1, op, e1);
    if !(op.OprArith? && IsNumeral(e1)) {
      RKMeans(c, fs1, e1, outer, base, g);
      LeadsOn(fs, fs1, fs2, outer);
      assert IsOperand(e1', Exp2RK(fs1, e1).2);
    }
    BeginNext(c, fs2, e1', outer, base, g);
  }

  lemma OperandSecond(c: Ctx, fs: FS, fs2: FS, e1: Exp, outer: set<nat>, base: nat, op: BinOp, a: Expr, y: Expr)
    requires Ready(c, fs2, e1, outer, base, GoalFor(c, fs, outer, a)) && Waiting(fs2, e1, op) && Leads(fs, fs2, outer)
    requires !op.OprAnd? && !op.OprOr? && Scoped(y, fs2.nactvar) && |fs.code| <= |fs2.code|
    requires var (fs3, e2) := Compile(c.env.ops, fs2, y);
             Compiled(c, fs2, y, outer, fs2.freereg, fs3, e2) &&
             Posfix(c.env.ops, fs3, op, e1, e2).0.ok && Posfix(c.env.ops, fs3, op, e1, e2).0.k <= c.env.k
    ensures var (fs3, e2) := Compile(c.env.ops, fs2, y); var (fs', e') := Posfix(c.env.ops, fs3, op, e1, e2);
            Compiled(c, fs, Bin(op, a, y), outer, base, fs', e')
  {
    hide Good, Leads, GoalFor, Compile, CodeArith, CodeComp;
    var g := GoalFor(c, fs, outer, a);
    var (fs3, e2) := Compile(c.env.ops, fs2, y);
    var (fs', e') := Posfix(c.env.ops, fs3, op, e1, e2);
    GoalOfBinary(c, fs, outer, op, a, y);
    if op.OprArith? && IsNumeral(e1) {
      ArithNumeral(c, fs2, e1, fs3, e2, outer, base, g, y, op.op);
    } else {
      var rk: nat :| IsOperand(e1, rk);
      if op.OprArith? {
        ArithMeans(c, fs2, e1, rk, fs3, e2, outer, base, g, y, op.op);
      } else {
        CompareMeans(c, fs2, e1, rk, fs3, e2, outer, base, g, y, op);
      }
    }
    LeadsOn(fs, fs2, fs', outer);
  }
}
