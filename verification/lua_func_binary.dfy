// lcode.c in place: the operators, as luaK_prefix, luaK_infix and luaK_posfix dispatch them.
module LuaFuncBinary {
  import opened LuaMachine
  import G = LuaCodegen
  import opened LuaCodegenTypes = LuaCodegen
  import opened LuaCodeRuns
  import opened LuaCodeRegs
  import opened LuaCodeArith
  import opened LuaCodeCompare
  import opened LuaCodeCompile
  import opened LuaJumpLists
  import opened LuaJumpTidy
  import opened LuaJumpCompile
  import opened LuaFuncState
  import E = LuaFuncExprs
  import O = LuaFuncOps

  // The generator's state when its registers in use ended at 'free'.
  ghost function FreeAt(m: FS, free: nat): FS { m.(freereg := free) }

  // Both operands of a binary operator: the first one waits where infix left it.
  ghost predicate Operands(fs: FuncState, op: BinOp, e1: ExpDesc, e2: ExpDesc, b: nat, outer: set<nat>, base: nat,
                           free: nat)
    reads fs, e1, e2
  {
    e1 != e2 && fs.ok && fs.Valid() && e1.Heads() && e2.Heads() && Waiting(fs.Model(), e1.Model(), op) &&
    RegsOK(FreeAt(fs.Model(), free), e1.Model(), base) && Tidy(fs.Model(), e2.Model(), b, outer, free)
  }

  // luaK_exp2RK where infix has already made an operand of the expression: nothing is emitted.
  method Exp2RKAgain(fs: FuncState, e: ExpDesc) returns (rk: nat)
    requires exists o: nat :: IsOperand(e.Model(), o)
    ensures (fs.Model(), e.Model(), rk) == G.Exp2RK(fs.Model(), e.Model()) && IsOperand(e.Model(), rk)
  {
    ghost var o: nat :| IsOperand(e.Model(), o);
    OperandIsRK(fs.Model(), e.Model(), o);
    rk := if e.kind == VK then e.info + BITRK else e.info;
  }

  method ConstFolding(ops: Ops, op: ArithOp, e1: ExpDesc, e2: ExpDesc) returns (folded: bool)
    requires e1.Heads() && e2.Heads()
    modifies e1
    ensures folded == G.Folds(ops, op, old(e1.Model()), old(e2.Model())) && e1.Heads()
    ensures e1.Model() == if folded then old(e1.Model()).(nval := ops.num(op, old(e1.nval), old(e2.nval))) else old(e1.Model())
  {
    if !e1.IsNumeral() || !e2.IsNumeral() { return false; }
    if (op == Div || op == Mod) && ops.isZero(e2.nval) { return false; }
    e1.nval := ops.num(op, e1.nval, e2.nval);
    folded := true;
  }

  // codearith
  method CodeArith(ops: Ops, fs: FuncState, op: ArithOp, e1: ExpDesc, e2: ExpDesc,
                   ghost b: nat, ghost outer: set<nat>, ghost base: nat, ghost free: nat)
    requires Operands(fs, OprArith(op), e1, e2, b, outer, base, free)
    modifies fs, e1, e2
    ensures E.Done(fs, e1, old(fs.Model()), G.CodeArith(ops, old(fs.Model()), op, old(e1.Model()), old(e2.Model())), b, outer, base)
  {
    hide Tidy, Linked, Distinct, Elems, RegsOK, IsOperand, G.Exp2RK, G.FreeExp, G.Code, Step, KeysOK;
    ghost var m, x1, x2 := fs.Model(), e1.Model(), e2.Model();
    if G.CodeArith(ops, m, op, x1, x2).0.ok { SecondTidy(ops, FreeAt(m, free), x1, m, x2, b, outer, base, OprArith(op)); }
    var folded := ConstFolding(ops, op, e1, e2);
    if folded { return; }
    var o2 := O.Exp2RK(fs, e2, b, outer, free);
    if !fs.ok { ArithFails(ops, m, op, x1, x2); return; }
    var o1;
    if e1.IsNumeral() {
      NumeralHolds(fs.Model(), e2.Model(), o2, b, outer, free, m, x1);
      o1 := O.Exp2RK(fs, e1, b, outer, fs.freereg);
      if !fs.ok { return; }
    } else {
      assert e1.Model() == x1 && !G.IsNumeral(x1);
      o1 := Exp2RKAgain(fs, e1);
    }
    if o1 > o2 {
      fs.FreeExp(e1);
      fs.FreeExp(e2);
    } else {
      fs.FreeExp(e2);
      fs.FreeExp(e1);
    }
    var pc := |fs.code|;
    fs.Code(ARITH(op, 0, o1, o2));
    e1.Become(VRELOCABLE, pc);
  }

  lemma ArithFails(ops: Ops, m: FS, op: ArithOp, x1: Exp, x2: Exp)
    requires !G.Exp2RK(m, x2).0.ok && !G.Folds(ops, op, x1, x2)
    ensures !G.CodeArith(ops, m, op, x1, x2).0.ok
  {}

  lemma NumeralHolds(m1: FS, x2: Exp, o2: nat, b: nat, outer: set<nat>, free: nat, m: FS, x1: Exp)
    requires Step(m, m1, x2, b, outer, free) && IsOperand(x2, o2) && G.IsNumeral(x1)
    ensures Tidy(m1, x1, b, outer, m1.freereg)
  {
    PlainTidy(m1, x2, b, outer, free, x1);
  }

  // codecomp
  method CodeComp(fs: FuncState, op: CmpOp, cond: bool, e1: ExpDesc, e2: ExpDesc,
                  ghost bop: BinOp, ghost ops: Ops, ghost b: nat, ghost outer: set<nat>, ghost base: nat, ghost free: nat)
    requires Operands(fs, bop, e1, e2, b, outer, base, free) && IsCompare(bop) && op == CompareOp(bop) &&
             cond == bop.OprCmp?
    modifies fs, e1, e2
    ensures E.Done(fs, e1, old(fs.Model()), G.CodeComp(old(fs.Model()), op, cond, old(e1.Model()), old(e2.Model())), b, outer, base)
  {
    hide Tidy, Linked, Distinct, RegsOK, IsOperand, G.Exp2RK, G.FreeExp, G.CondJump, Step, G.Posfix;
    ghost var m, x1, x2 := fs.Model(), e1.Model(), e2.Model();
    CompareIs(ops, m, bop, x1, x2);
    if G.CodeComp(m, op, cond, x1, x2).0.ok { SecondTidy(ops, FreeAt(m, free), x1, m, x2, b, outer, base, bop); }
    var o1 := Exp2RKAgain(fs, e1);
    var o2 := O.Exp2RK(fs, e2, b, outer, free);
    if !fs.ok { CompFails(m, op, cond, x1, x2); return; }
    fs.FreeExp(e2);
    fs.FreeExp(e1);
    var cond' := cond;
    if !cond && op != Eq {
      o1, o2 := o2, o1;
      cond' := true;
    }
    var j := fs.CondJump(CMP(op, cond', o1, o2));
    e1.Become(VJMP, j);
  }

  lemma CompFails(m: FS, op: CmpOp, cond: bool, x1: Exp, x2: Exp)
    requires var (m1, x1', _) := G.Exp2RK(m, x1); !G.Exp2RK(m1, x2).0.ok
    ensures !G.CodeComp(m, op, cond, x1, x2).0.ok
  {}

  // luaK_prefix, minus and length
  method PrefixUn(ops: Ops, fs: FuncState, op: UnOp, e: ExpDesc, ghost b: nat, ghost outer: set<nat>, ghost base: nat)
    requires E.Holds(fs, e, b, outer, base)
    modifies fs, e
    ensures E.Done(fs, e, old(fs.Model()), G.PrefixUn(ops, old(fs.Model()), op, old(e.Model())), b, outer, base)
  {
    hide Tidy, Step, Linked, Distinct, RegsOK, G.Exp2RK, G.FreeExp, G.Code, G.Exp2AnyReg;
    ghost var m, x := fs.Model(), e.Model();
    if G.PrefixUn(ops, m, op, x).0.ok { UnaryTidy(ops, m, x, b, outer, base, op); }
    if op == Minus && e.IsNumeral() {
      e.nval := ops.neg(e.nval);
      return;
    }
    O.Exp2AnyReg(fs, e, b, outer, base);
    if !fs.ok { return; }
    RegisterIsOperand(m, fs.Model(), e.Model(), b, outer, base);
    var o1 := Exp2RKAgain(fs, e);
    fs.FreeExp(e);
    var pc := |fs.code|;
    fs.Code(UNARY(op, 0, o1));
    e.Become(VRELOCABLE, pc);
  }

  lemma RegisterIsOperand(m: FS, m1: FS, x: Exp, b: nat, outer: set<nat>, base: nat)
    requires Step(m, m1, x, b, outer, base) && m1.ok && x.kind == VNONRELOC && x.t == [] && x.f == []
    ensures IsOperand(x, x.info)
  {
    TidyReady(Any([], b), m1, x, outer, base);
    LowRegister(Any([], b), m1, x, outer, base, Idle());
  }

  ghost predicate IsAndOr(op: BinOp) { op.OprAnd? || op.OprOr? }

  // luaK_infix
  method Infix(fs: FuncState, op: BinOp, e: ExpDesc, ghost b: nat, ghost outer: set<nat>, ghost base: nat)
    requires E.Holds(fs, e, b, outer, base)
    modifies fs, e
    ensures IsAndOr(op) ==> O.Condition(fs, e, old(fs.Model()), G.Infix(old(fs.Model()), op, old(e.Model())), b, outer, base)
    ensures IsAndOr(op) && fs.ok ==> if op.OprAnd? then e.ts == [] else e.fs == []
    ensures !IsAndOr(op) ==>
              E.Done(fs, e, old(fs.Model()), G.Infix(old(fs.Model()), op, old(e.Model())), b, outer, base) &&
              (fs.ok ==> Waiting(fs.Model(), e.Model(), op))
  {
    hide Tidy, Step, Linked, Distinct, RegsOK, G.Exp2RK, G.GoIfTrue, G.GoIfFalse, CondStep;
    ghost var m, x := fs.Model(), e.Model();
    match op {
      case OprAnd => O.GoIfTrue(fs, e, b, outer, base);
      case OprOr => O.GoIfFalse(fs, e, b, outer, base);
      case OprArith(_) =>
        if !e.IsNumeral() { var o := O.Exp2RK(fs, e, b, outer, base); } else { NoStep(m, x, b, outer, base); }
      case _ => var o := O.Exp2RK(fs, e, b, outer, base);
    }
  }

  // luaK_posfix for 'and' and 'or': e1's exits join those of e2, and e2 takes the place of e1.
  method PosfixAndOr(fs: FuncState, op: BinOp, e1: ExpDesc, e2: ExpDesc,
                     ghost ops: Ops, ghost b: nat, ghost outer: set<nat>, ghost base: nat)
    requires IsAndOr(op) && e1 != e2 && fs.ok && fs.Valid() && e1.Heads() && e2.Heads()
    requires var l := if op.OprAnd? then e1.fs else e1.ts;
             Linked(fs.code, l) && Distinct(l) && Elems(l) !! outer && Tidy(fs.Model(), e2.Model(), b, outer + Elems(l), base)
    modifies fs, e1, e2
    ensures E.Done(fs, e1, old(fs.Model()), G.Posfix(ops, old(fs.Model()), op, old(e1.Model()), old(e2.Model())), b, outer, base)
  {
    hide Tidy, Step, Linked, Distinct, RegsOK, Elems, G.Concat;
    ghost var m, x1, x2 := fs.Model(), e1.Model(), e2.Model();
    ghost var l := if op.OprAnd? then e1.fs else e1.ts;
    SameOuter(m, x2, b, outer + Elems(l), base);
    AndOrTidy(ops, m, x1, m, x2, b, outer, base, op);
    SecondLists(m, x2, b, outer + Elems(l), base);
    e2.DischargeVars();
    JoinExits(fs, op, e1, e2);
    assert G.Posfix(ops, m, op, x1, x2) == (fs.Model(), e2.Model());
    e1.Copy(e2);
    StepLinks(m, fs.Model(), e1.Model(), b, outer, base);
  }

  method JoinExits(fs: FuncState, op: BinOp, e1: ExpDesc, e2: ExpDesc)
    requires IsAndOr(op) && e1 != e2 && e1.Heads() && e2.Heads()
    requires var l := if op.OprAnd? then e2.fs else e2.ts; Linked(fs.code, l) && Distinct(l)
    modifies fs`code, fs`ok, e2
    ensures var (a, l) := if op.OprAnd? then (old(e2.fs), e1.fs) else (old(e2.ts), e1.ts);
            fs.Model() == G.Concat(old(fs.Model()), a, l) && e2.Heads() &&
            e2.Model() == if op.OprAnd? then old(e2.Model()).(f := a + l) else old(e2.Model()).(t := a + l)
  {
    hide Linked, Distinct, G.Concat;
    if op.OprAnd? {
      var head := fs.Concat(e2.f, e1.f, e2.fs, e1.fs);
      e2.SetFalse(head, e2.fs + e1.fs);
    } else {
      var head := fs.Concat(e2.t, e1.t, e2.ts, e1.ts);
      e2.SetTrue(head, e2.ts + e1.ts);
    }
  }

  lemma SameOuter(m: FS, x: Exp, b: nat, outer: set<nat>, base: nat)
    requires Tidy(m, x, b, outer, base)
    ensures SameJumps(m.code, m.code, outer)
  {}

  lemma SecondLists(m: FS, x: Exp, b: nat, outer: set<nat>, base: nat)
    requires Tidy(m, x, b, outer, base)
    ensures Linked(m.code, x.t) && Linked(m.code, x.f) && Distinct(x.t) && Distinct(x.f)
  {}

  lemma StepLinks(m: FS, m1: FS, x: Exp, b: nat, outer: set<nat>, base: nat)
    requires Step(m, m1, x, b, outer, base)
    ensures Linked(m1.code, m1.jpc) && Distinct(m1.jpc)
  {}

  // luaK_posfix for the other operators
  method Posfix(ops: Ops, fs: FuncState, op: BinOp, e1: ExpDesc, e2: ExpDesc,
                ghost b: nat, ghost outer: set<nat>, ghost base: nat, ghost free: nat)
    requires !IsAndOr(op) && Operands(fs, op, e1, e2, b, outer, base, free)
    modifies fs, e1, e2
    ensures E.Done(fs, e1, old(fs.Model()), G.Posfix(ops, old(fs.Model()), op, old(e1.Model()), old(e2.Model())), b, outer, base)
  {
    hide Tidy, Step, Linked, Distinct, RegsOK, G.CodeArith, G.CodeComp, Waiting;
    match op {
      case OprArith(a) => CodeArith(ops, fs, a, e1, e2, b, outer, base, free);
      case OprCmp(c) => CodeComp(fs, c, true, e1, e2, op, ops, b, outer, base, free);
      case OprNe => CodeComp(fs, Eq, false, e1, e2, op, ops, b, outer, base, free);
      case OprGt => CodeComp(fs, Lt, false, e1, e2, op, ops, b, outer, base, free);
      case OprGe => CodeComp(fs, Le, false, e1, e2, op, ops, b, outer, base, free);
      case OprAnd =>
      case OprOr =>
    }
  }
}
