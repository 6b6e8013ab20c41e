// codecomp, the unary operators, and what and/or join.
module LuaCodeCompare {
  import opened Common
  import opened LuaMachine
  import opened LuaCodegen
  import opened LuaCodeRuns
  import opened LuaCodeMeaning
  import opened LuaCodePlace
  import opened LuaCodeRegs
  import opened LuaCodeConds
  import opened LuaCodeNot
  import opened LuaCodeOperands
  import opened LuaCodeArith

  // ----- comparisons -----

  // The descriptor of a comparison whose jump is emitted next but one.
  ghost function Compared(e: Exp, fs: FS): Exp { e.(kind := VJMP, info := |fs.code| + 1) }

  lemma ComparisonShape(fs: FS, e: Exp, i: Instr, b: nat, outer: set<nat>)
    requires Shaped(fs, Nothing(), b, outer) && i.CMP? && e.t == [] && e.f == []
    ensures var n := |fs.code|; var fs' := Emit(fs, [i, JMP(NO_JUMP)]);
            Shaped(fs', Compared(e, fs), b, outer) && KeepsControls(fs.code, fs'.code, outer) && fs'.jpc == [] &&
            |fs'.code| == n + 2 && fs'.code[n] == i && Own(Compared(e, fs)) == {n + 1} && Leads(fs, fs', outer)
  {
    var fs', e' := Emit(fs, [i, JMP(NO_JUMP)]), Compared(e, fs);
    TestShape(fs, Nothing(), i, b, outer, true);
    EmitFields(fs, [i, JMP(NO_JUMP)]);
    FewerOuter(fs.code, fs'.code, outer, Own(Nothing()));
    hide Emit, KeepsControls;
    assert Own(e') == {|fs.code| + 1} == Own(Joined(Nothing(), [|fs.code| + 1], true));
  }

  ghost predicate Decides(env: Env, i: Instr, r: Regs, v: Option<Value>)
    requires i.CMP?
  {
    v == BoolOf(Takes(env, i, r))
  }

  lemma ComparisonRuns(env: Env, code: seq<Instr>, stops: set<nat>, r: Regs)
    requires |code| >= 2 && code[|code| - 2].CMP? && |code| - 2 !in stops && |code| - 1 in stops
    ensures var n := |code|; var o := Run(env, code, stops, n, n - 2, r); var t := Takes(env, code[n - 2], r);
            o == if t.None? then Err else if t.value then Taken(n - 1, r) else At(n, r)
  {
    var n := |code|;
    assert Run(env, code, stops, n, n, r) == At(n, r);
    assert Run(env, code, stops, n, n - 2, r) == RunTest(env, code, stops, n, n - 2, r);
    assert TakeJump(env, code, stops, n, n - 1, r) == Taken(n - 1, r);
  }

  lemma EmitComparison(c: Ctx, fs: FS, e: Exp, i: Instr, outer: set<nat>, fr: nat, g: Goal, start: Regs -> bool)
    requires Conds(c, fs, Nothing(), outer, fr, g, start) && i.CMP? && e.t == [] && e.f == []
    requires forall r :: start(r) ==> g.Wanted? && Decides(c.env, i, r, g.v)
    ensures Good(c, Emit(fs, [i, JMP(NO_JUMP)]), Compared(e, fs), outer, fr, -1, g)
    ensures Leads(fs, Emit(fs, [i, JMP(NO_JUMP)]), outer)
  {
    hide Shaped, Emit, Run, Own, Elems;
    var n := |fs.code|;
    var fs', e' := Emit(fs, [i, JMP(NO_JUMP)]), Compared(e, fs);
    ComparisonShape(fs, e, i, c.b, outer);
    ComparisonParts(fs, c.b, outer);
    if !(g.Elsewhere? && g.o.Stuck?) {
      NothingOwned();
      CondsEmit(c, fs, Nothing(), [i, JMP(NO_JUMP)], outer, fr, g, start, {n + 1}, n + 2);
      ComparedOwns(e, fs);
      assert outer + Own(Nothing()) + {n + 1} == outer + Elems(fs'.jpc) + Own(e');
      var o := Run(c.env, fs.code, outer + Elems(fs.jpc) + Own(Nothing()), n, c.b, c.s);
      if g.Wanted? && Arrived(o, fs.jpc, n) {
        ArrivedNotLeft(fs, Nothing(), c.b, outer, g.v, o);
        assert n !in outer + Own(Nothing()) + {n + 1};
        ComparisonRuns(c.env, fs'.code, outer + Own(Nothing()) + {n + 1}, o.regs);
      }
    }
  }

  lemma ComparedOwns(e: Exp, fs: FS)
    requires e.t == [] && e.f == []
    ensures Own(Compared(e, fs)) == {|fs.code| + 1} && Elems([]) == {}
  {}

  lemma ComparisonParts(fs: FS, b: nat, outer: set<nat>)
    requires Shaped(fs, Nothing(), b, outer)
    ensures forall j :: j in outer ==> j < |fs.code|
  {}

  // The comparison of an operator of the language: its opcode, condition, and whether the operands change places.
  ghost function CompareOp(op: BinOp): CmpOp {
    match op
    case OprCmp(c) => c
    case OprGt => Lt
    case OprGe => Le
    case _ => Eq
  }

  ghost predicate IsCompare(op: BinOp) { op.OprCmp? || op.OprNe? || op.OprGt? || op.OprGe? }

  lemma CompareIs(ops: Ops, fs: FS, op: BinOp, e1: Exp, e2: Exp)
    requires IsCompare(op)
    ensures Posfix(ops, fs, op, e1, e2) == CodeComp(fs, CompareOp(op), op.OprCmp?, e1, e2)
  {}

  ghost function Comparing(op: BinOp, o1: nat, o2: nat): Instr {
    if op.OprGt? || op.OprGe? then CMP(CompareOp(op), true, o2, o1) else CMP(CompareOp(op), op.OprCmp?, o1, o2)
  }

  ghost function BinGoal(ops: Ops, op: BinOp, g: Goal, y: Expr): Goal {
    if g.Elsewhere? then g
    else Wanted(g.r, var w := Eval(ops, y, g.r); if g.v.None? || w.None? then None else Combine(ops, op, g.v.value, w.value))
  }

  lemma ComparingDecides(env: Env, op: BinOp, o1: nat, o2: nat, r: Regs)
    requires IsCompare(op)
    ensures Decides(env, Comparing(op, o1, o2), r, Combine(env.ops, op, RK(env, r, o1), RK(env, r, o2)))
  {}

  lemma CompareMeans(c: Ctx, fs1: FS, e1: Exp, o1: nat, fs3: FS, e2: Exp, outer: set<nat>, base: nat, g1: Goal, y: Expr,
                     op: BinOp)
    requires Ready(c, fs1, e1, outer, base, g1) && IsOperand(e1, o1) && Scoped(y, fs1.nactvar) && IsCompare(op)
    requires Ready(c, fs3, e2, outer, fs1.freereg, GoalFor(c, fs1, outer, y)) && Leads(fs1, fs3, outer) &&
             fs3.nactvar == fs1.nactvar
    requires var fs' := Posfix(c.env.ops, fs3, op, e1, e2).0; fs'.ok && fs'.k <= c.env.k
    ensures var (fs', e') := Posfix(c.env.ops, fs3, op, e1, e2);
            Ready(c, fs', e', outer, base, BinGoal(c.env.ops, op, g1, y)) && e'.kind == VJMP && Leads(fs1, fs', outer)
  {
    hide Good, Leads, Exp2RK, FreeExp, RegsOK, Emit, GoalFor, Combine;
    CompareIs(c.env.ops, fs3, op, e1, e2);
    OperandIsRK(fs3, e1, o1);
    var (fs2, q, o2) := Exp2RK(fs3, e2);
    RKMeans(c, fs3, e2, outer, fs1.freereg, GoalFor(c, fs1, outer, y));
    LeadsOn(fs1, fs3, fs2, outer);
    var i := Comparing(op, o1, o2);
    FreeBoth(fs1, e1, o1, fs2, q, o2, base);
    var fs4 := fs2.(freereg := base);
    EmitIsCode(fs4, i, i);
    var fs' := Emit(fs4, [i, JMP(NO_JUMP)]);
    assert Posfix(c.env.ops, fs3, op, e1, e2) == (fs', Compared(e1, fs4));
    ComparisonMeans(c, fs1, e1, o1, fs2, q, o2, outer, base, g1, y, op);
    EmitFields(fs4, [i, JMP(NO_JUMP)]);
    BaseAbove(c, fs1, e1, outer, base, g1);
    ComparedRegs(fs', Compared(e1, fs4), base);
  }

  lemma ComparedRegs(fs: FS, e: Exp, base: nat)
    requires e.kind == VJMP && fs.freereg == base && fs.nactvar <= base
    ensures RegsOK(fs, e, base)
  {}

  lemma ComparisonMeans(c: Ctx, fs1: FS, p: Exp, o1: nat, fs2: FS, q: Exp, o2: nat, outer: set<nat>, base: nat,
                        g1: Goal, y: Expr, op: BinOp)
    requires Ready(c, fs1, p, outer, base, g1) && IsOperand(p, o1) && Scoped(y, fs1.nactvar) && IsCompare(op)
    requires Ready(c, fs2, q, outer, fs1.freereg, GoalFor(c, fs1, outer, y)) && IsOperand(q, o2) &&
             Leads(fs1, fs2, outer)
    requires fs2.nactvar == fs1.nactvar && fs2.ok
    ensures var fs4 := fs2.(freereg := base); var fs' := Emit(fs4, [Comparing(op, o1, o2), JMP(NO_JUMP)]);
            Good(c, fs', Compared(p, fs4), outer, base, -1, BinGoal(c.env.ops, op, g1, y)) && Leads(fs1, fs', outer)
  {
    hide Good, Conds, Leads, Emit, Shaped, GoalFor, Combine;
    var fs4 := fs2.(freereg := base);
    var i := Comparing(op, o1, o2);
    var g := BinGoal(c.env.ops, op, g1, y);
    BothAtBase(c, fs1, p, o1, fs2, q, o2, outer, base, g1, y, g);
    var start := r => g.Wanted? && Decides(c.env, i, r, g.v);
    forall r | BothValues(c, fs2, p, q, g1, y)(r) ensures start(r) {
      OperandValue(c.env, fs2, p, o1, r);
      OperandValue(c.env, fs2, q, o2, r);
      ComparingDecides(c.env, op, o1, o2, r);
    }
    WeakenConds(c, fs4, Nothing(), outer, base, g, BothValues(c, fs2, p, q, g1, y), start);
    EmitComparison(c, fs4, p, i, outer, base, g, start);
    LeadsFrom(fs2, fs4, Emit(fs4, [i, JMP(NO_JUMP)]), outer);
    EmitLength(fs4, [i, JMP(NO_JUMP)]);
    LeadsOn(fs1, fs2, Emit(fs4, [i, JMP(NO_JUMP)]), outer);
  }

  // ----- unary minus and length -----

  ghost function UnGoal(ops: Ops, op: UnOp, g: Goal): Goal {
    if g.Elsewhere? then g else Wanted(g.r, if g.v.None? then None else Unary(ops, op, g.v.value))
  }

  // A descriptor without lists can only have gone wrong or have arrived.
  lemma ChangeGoal(c: Ctx, fs: FS, e: Exp, outer: set<nat>, fr: nat, g: Goal, g': Goal, start: Regs -> bool)
    requires Good(c, fs, e, outer, fr, -1, g) && e.t == [] && e.f == [] && Settled(e)
    requires if g.Elsewhere? then g' == g else g'.Wanted? && g'.r == g.r && (g.v.None? ==> g'.v.None?)
    requires g.Wanted? ==> forall r :: EndVal(c.env, fs, e, r) == g.v ==> start(r)
    ensures Conds(c, fs, Nothing(), outer, fr, g', start)
  {
    assert Own(e) == {} == Own(Nothing());
  }

  lemma UnaryMeans(c: Ctx, fs: FS, e: Exp, outer: set<nat>, base: nat, g: Goal, op: UnOp)
    requires Ready(c, fs, e, outer, base, g)
    requires PrefixUn(c.env.ops, fs, op, e).0.ok && PrefixUn(c.env.ops, fs, op, e).0.k <= c.env.k
    ensures var (fs', e') := PrefixUn(c.env.ops, fs, op, e);
            Ready(c, fs', e', outer, base, UnGoal(c.env.ops, op, g)) && e'.kind != VK && Leads(fs, fs', outer)
  {
    hide Good, Leads, Exp2AnyReg, Exp2RK, FreeExp, Emit;
    var (fs', e') := PrefixUn(c.env.ops, fs, op, e);
    if op == Minus && IsNumeral(e) {
      FoldMeans(c, fs, e, e', outer, base, g, UnGoal(c.env.ops, op, g));
      SameLeads(c, fs, e, outer, base, -1, g);
    } else {
      var (fs1, e1) := Exp2AnyReg(fs, e);
      AnyRegMeans(c, fs, e, outer, base, g);
      LowRegister(c, fs1, e1, outer, base, g);
      OperandIsRK(fs1, e1, e1.info);
      FreeMeans(c, fs1, e1, outer, base, g);
      var fs2 := FreeExp(fs1, e1);
      var i := UNARY(op, 0, e1.info);
      var g' := UnGoal(c.env.ops, op, g);
      var start := r => g'.Wanted? && ValueOf(c.env, i, r) == g'.v;
      ChangeGoal(c, fs2, e1, outer, base, g, g', start);
      EmitIsCode(fs2, i, i);
      EmitOperation(c, fs2, e1, i, outer, base, g', start);
      EmitFields(fs2, [i]);
      LeadsFrom(fs1, fs2, fs', outer);
      LeadsTrans(fs, fs1, fs', outer);
    }
  }
}
