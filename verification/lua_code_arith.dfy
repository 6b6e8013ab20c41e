// codearith and codecomp: the operation sees the values of both operands, and their registers
// are given back in stack order.
module LuaCodeArith {
  import opened Common
  import opened LuaMachine
  import opened LuaCodegen
  import opened LuaCodeRuns
  import opened LuaCodeMeaning
  import opened LuaCodePlace
  import opened LuaCodeRegs
  import opened LuaCodeConds
  import opened LuaCodeNot
  import opened LuaCodeOperands

  // ----- registers -----

  // A register that is given back is the topmost one.
  ghost predicate OnTop(fs: FS, e: Exp) {
    e.kind == VNONRELOC && e.info >= fs.nactvar ==> e.info == fs.freereg - 1
  }

  // p was prepared first, then q; the one with the higher register number goes first.
  lemma FreeBoth(fs1: FS, p: Exp, o1: nat, fs: FS, q: Exp, o2: nat, base: nat)
    requires RegsOK(fs1, p, base) && IsOperand(p, o1) && RegsOK(fs, q, fs1.freereg) && IsOperand(q, o2)
    requires fs.nactvar == fs1.nactvar
    ensures OnTop(fs, q) && OnTop(FreeExp(fs, q), p) && FreeExp(FreeExp(fs, q), p) == fs.(freereg := base)
    ensures o1 > o2 ==> OnTop(fs, p) && OnTop(FreeExp(fs, p), q) && FreeExp(FreeExp(fs, p), q) == fs.(freereg := base)
  {}

  lemma OperandIsRK(fs: FS, e: Exp, rk: nat)
    requires IsOperand(e, rk)
    ensures Exp2RK(fs, e) == (fs, e, rk)
  {}

  lemma OperandValue(env: Env, fs: FS, e: Exp, rk: nat, r: Regs)
    requires IsOperand(e, rk)
    ensures EndVal(env, fs, e, r) == Some(RK(env, r, rk))
  {}

  // ----- the instruction -----

  lemma ActsGood(c: Ctx, fs: FS, e: Exp, outer: set<nat>, fr: nat, g: Goal, arrival: Regs -> bool)
    requires Acts(c, fs, e, outer, fr, g, arrival, false) && Shaped(fs, e, c.b, outer) && GoalOK(g, outer, |fs.code|)
    requires g.Wanted? ==> forall r :: arrival(r) ==> EndVal(c.env, fs, e, r) == g.v
    ensures Good(c, fs, e, outer, fr, -1, g)
  {}

  lemma EmitOperation(c: Ctx, fs: FS, e: Exp, i: Instr, outer: set<nat>, fr: nat, g: Goal, start: Regs -> bool)
    requires Conds(c, fs, Nothing(), outer, fr, g, start) && (i.ARITH? || i.UNARY? || i.NOT?) && e.t == [] && e.f == []
    requires forall r :: start(r) ==> g.Wanted? && ValueOf(c.env, i, r) == g.v
    ensures Good(c, Emit(fs, [i]), Last(e, fs), outer, fr, -1, g) && Leads(fs, Emit(fs, [i]), outer)
  {
    hide Conds, Emit, Shaped, Leads, GoalOK;
    var arrival := r => g.Wanted? && ValueOf(c.env, i, r) == g.v;
    assert Lists(e.t, e.f) == Nothing();
    EmitAfter(c, fs, e, i, outer, fr, g, start, arrival);
    forall r | arrival(r) ensures EndVal(c.env, Emit(fs, [i]), Last(e, fs), r) == g.v { EndOfLast(c.env, fs, e, i, r); }
    EmitLength(fs, [i]);
    ActsGood(c, Emit(fs, [i]), Last(e, fs), outer, fr, g, arrival);
  }

  lemma EmitLength(fs: FS, tail: seq<Instr>)
    ensures |Emit(fs, tail).code| == |fs.code| + |tail|
  {}

  // ----- arithmetic -----

  ghost function Arithmetic(ops: Ops, op: ArithOp, v: Option<Value>, w: Option<Value>): Option<Value> {
    if v.None? || w.None? then None else Arith(ops, op, v.value, w.value)
  }

  ghost function ArithGoal(ops: Ops, op: ArithOp, g: Goal, y: Expr): Goal {
    if g.Elsewhere? then g else Wanted(g.r, Arithmetic(ops, op, g.v, Eval(ops, y, g.r)))
  }

  // The second operand is ready when the first one was an operand before it.
  lemma ArithMeans(c: Ctx, fs1: FS, e1: Exp, o1: nat, fs3: FS, e2: Exp, outer: set<nat>, base: nat, g1: Goal, y: Expr,
                   op: ArithOp)
    requires Ready(c, fs1, e1, outer, base, g1) && IsOperand(e1, o1) && Scoped(y, fs1.nactvar)
    requires Ready(c, fs3, e2, outer, fs1.freereg, GoalFor(c, fs1, outer, y)) && Leads(fs1, fs3, outer) &&
             fs3.nactvar == fs1.nactvar
    requires var fs' := CodeArith(c.env.ops, fs3, op, e1, e2).0; fs'.ok && fs'.k <= c.env.k
    ensures var (fs', e') := CodeArith(c.env.ops, fs3, op, e1, e2);
            Ready(c, fs', e', outer, base, ArithGoal(c.env.ops, op, g1, y)) && e'.kind == VRELOCABLE && Leads(fs1, fs', outer)
  {
    hide Good, Leads, Exp2RK, FreeExp, RegsOK, Emit, GoalFor;
    var (fs2, q, o2) := Exp2RK(fs3, e2);
    OperandIsRK(fs2, e1, o1);
    RKMeans(c, fs3, e2, outer, fs1.freereg, GoalFor(c, fs1, outer, y));
    LeadsOn(fs1, fs3, fs2, outer);
    OperandsMeet(c, fs1, e1, o1, fs2, q, o2, outer, base, g1, y, ARITH(op, 0, o1, o2), ArithGoal(c.env.ops, op, g1, y));
    FreeBoth(fs1, e1, o1, fs2, q, o2, base);
    EmitIsCode(fs2.(freereg := base), ARITH(op, 0, o1, o2), ARITH(op, 0, o1, o2));
  }

  lemma LeadsOn(fs: FS, fs1: FS, fs2: FS, outer: set<nat>)
    requires Leads(fs, fs1, outer) && Leads(fs1, fs2, outer) && |fs1.code| <= |fs2.code|
    ensures Leads(fs, fs2, outer)
  {}

  // Freed operands, then the instruction that uses them.
  lemma OperandsMeet(c: Ctx, fs1: FS, p: Exp, o1: nat, fs2: FS, q: Exp, o2: nat, outer: set<nat>, base: nat, g1: Goal,
                     y: Expr,
                     i: Instr, g: Goal)
    requires Ready(c, fs1, p, outer, base, g1) && IsOperand(p, o1) && Scoped(y, fs1.nactvar)
    requires Ready(c, fs2, q, outer, fs1.freereg, GoalFor(c, fs1, outer, y)) && IsOperand(q, o2) &&
             Leads(fs1, fs2, outer)
    requires i.ARITH? && Combined(c.env.ops, g, g1, y) && fs2.nactvar == fs1.nactvar && fs2.ok
    requires g1.Wanted? && g1.v.Some? && Eval(c.env.ops, y, g1.r).Some? ==>
               forall r :: Some(RK(c.env, r, o1)) == g1.v && Some(RK(c.env, r, o2)) == Eval(c.env.ops, y, g1.r) ==>
                           ValueOf(c.env, i, r) == g.v
    ensures var fs3 := fs2.(freereg := base); var fs' := Emit(fs3, [i]);
            (forall e: Exp :: e.t == [] && e.f == [] ==> Ready(c, fs', Last(e, fs3), outer, base, g)) &&
            Leads(fs1, fs', outer)
  {
    hide Good, Conds, Leads, Emit, Shaped, GoalFor;
    var fs3 := fs2.(freereg := base);
    BothAtBase(c, fs1, p, o1, fs2, q, o2, outer, base, g1, y, g);
    var start := r => g1.Wanted? && Some(RK(c.env, r, o1)) == g1.v && Some(RK(c.env, r, o2)) == Eval(c.env.ops, y, g1.r);
    forall r | BothValues(c, fs2, p, q, g1, y)(r) ensures start(r) {
      OperandValue(c.env, fs2, p, o1, r);
      OperandValue(c.env, fs2, q, o2, r);
    }
    WeakenConds(c, fs3, Nothing(), outer, base, g, BothValues(c, fs2, p, q, g1, y), start);
    forall r | start(r) ensures g.Wanted? && ValueOf(c.env, i, r) == g.v {}
    forall e: Exp | e.t == [] && e.f == [] ensures Ready(c, Emit(fs3, [i]), Last(e, fs3), outer, base, g) {
      EmitOperation(c, fs3, e, i, outer, base, g, start);
      EmitFields(fs3, [i]);
      BaseAbove(c, fs1, p, outer, base, g1);
    }
    EmitOperation(c, fs3, Nothing(), i, outer, base, g, start);
    LeadsFrom(fs2, fs3, Emit(fs3, [i]), outer);
    EmitLength(fs3, [i]);
    LeadsOn(fs1, fs2, Emit(fs3, [i]), outer);
  }

  lemma BaseAbove(c: Ctx, fs: FS, e: Exp, outer: set<nat>, base: nat, g: Goal)
    requires Ready(c, fs, e, outer, base, g)
    ensures fs.nactvar <= base <= fs.freereg
  {}

  lemma BothAtBase(c: Ctx, fs1: FS, p: Exp, o1: nat, fs2: FS, q: Exp, o2: nat, outer: set<nat>, base: nat, g1: Goal,
                   y: Expr, g: Goal)
    requires Ready(c, fs1, p, outer, base, g1) && IsOperand(p, o1) && Scoped(y, fs1.nactvar)
    requires Ready(c, fs2, q, outer, fs1.freereg, GoalFor(c, fs1, outer, y)) && IsOperand(q, o2) &&
             Leads(fs1, fs2, outer)
    requires Combined(c.env.ops, g, g1, y) && fs2.nactvar == fs1.nactvar
    ensures Conds(c, fs2.(freereg := base), Nothing(), outer, base, g, BothValues(c, fs2, p, q, g1, y))
  {
    BothMeans(c, fs1, p, o1, fs2, q, o2, outer, base, g1, y, g);
    BaseAbove(c, fs1, p, outer, base, g1);
    FreeregAbove(fs2, q, fs1.freereg);
    LowerFreereg(c, fs2, outer, base, g, BothValues(c, fs2, p, q, g1, y), base);
  }

  lemma LowerFreereg(c: Ctx, fs: FS, outer: set<nat>, fr: nat, g: Goal, arrival: Regs -> bool, base: nat)
    requires Conds(c, fs, Nothing(), outer, fr, g, arrival) && fs.nactvar <= base <= fs.freereg
    ensures Conds(c, fs.(freereg := base), Nothing(), outer, fr, g, arrival)
  {}

  // ----- a numeral as first operand -----

  lemma NumeralMeans(c: Ctx, fs: FS, outer: set<nat>, base: nat, e: Exp)
    requires Begun(c, fs, outer, base) && IsNumeral(e)
    ensures Ready(c, fs, e, outer, base, GoalFor(c, fs, outer, Const(Num(e.nval))))
  {
    LeafMeans(c, fs, e, outer, base, Const(Num(e.nval)));
  }

  // Folded: the second operand's descriptor, with another number.
  lemma FoldMeans(c: Ctx, fs: FS, e: Exp, e': Exp, outer: set<nat>, base: nat, g: Goal, g': Goal)
    requires Ready(c, fs, e, outer, base, g) && IsNumeral(e) && IsNumeral(e')
    requires if g.Elsewhere? then g' == g
             else g'.Wanted? && g'.r == g.r && (g.v.None? ==> g'.v.None?) && (g.v == Some(Num(e.nval)) ==> g'.v == Some(Num(e'.nval)))
    ensures Ready(c, fs, e', outer, base, g')
  {
    assert Own(e) == {} == Own(e');
    assert Outcomes(c, fs, e', outer) == Outcomes(c, fs, e, outer);
  }

  // What the rest has to do once the numeral is known.
  ghost function Rest(ops: Ops, op: ArithOp, n: int, g: Goal): Goal {
    if g.Elsewhere? then g else Wanted(g.r, Arithmetic(ops, op, Some(Num(n)), g.v))
  }

  lemma RestChains(c: Ctx, fs1: FS, e1: Exp, outer: set<nat>, base: nat, g1: Goal, y: Expr, op: ArithOp, fs: FS, e: Exp)
    requires Ready(c, fs1, e1, outer, base, g1) && IsNumeral(e1) && Scoped(y, fs1.nactvar)
    requires Ready(c, fs, e, outer, base, Rest(c.env.ops, op, e1.nval, GoalFor(c, fs1, outer, y)))
    ensures Ready(c, fs, e, outer, base, ArithGoal(c.env.ops, op, g1, y))
  {
    hide Good, GoalFor;
    Chain(c, fs1, e1, outer, base, g1, y, fs, e, Rest(c.env.ops, op, e1.nval, GoalFor(c, fs1, outer, y)),
          ArithGoal(c.env.ops, op, g1, y));
  }

  lemma ArithNumeral(c: Ctx, fs1: FS, e1: Exp, fs3: FS, e2: Exp, outer: set<nat>, base: nat, g1: Goal, y: Expr,
                     op: ArithOp)
    requires Ready(c, fs1, e1, outer, base, g1) && IsNumeral(e1) && Scoped(y, fs1.nactvar)
    requires Ready(c, fs3, e2, outer, base, GoalFor(c, fs1, outer, y)) && Leads(fs1, fs3, outer) &&
             fs3.nactvar == fs1.nactvar
    requires var fs' := CodeArith(c.env.ops, fs3, op, e1, e2).0; fs'.ok && fs'.k <= c.env.k
    ensures var (fs', e') := CodeArith(c.env.ops, fs3, op, e1, e2);
            Ready(c, fs', e', outer, base, ArithGoal(c.env.ops, op, g1, y)) && (e'.kind == VRELOCABLE || e'.kind == VKNUM) && Leads(fs1, fs', outer)
  {
    hide Ready, Leads, Exp2RK, FreeExp, Emit, GoalFor;
    var gy := GoalFor(c, fs1, outer, y);
    var (fs', e') := CodeArith(c.env.ops, fs3, op, e1, e2);
    if Folds(c.env.ops, op, e1, e2) {
      FoldMeans(c, fs3, e2, e', outer, base, gy, Rest(c.env.ops, op, e1.nval, gy));
    } else {
      NumeralLast(c, fs3, e1, e2, outer, base, gy, op);
      LeadsOn(fs1, fs3, fs', outer);
    }
    RestChains(c, fs1, e1, outer, base, g1, y, op, fs', e');
  }

  lemma NumeralLast(c: Ctx, fs3: FS, e1: Exp, e2: Exp, outer: set<nat>, base: nat, gy: Goal, op: ArithOp)
    requires Ready(c, fs3, e2, outer, base, gy) && IsNumeral(e1) && !Folds(c.env.ops, op, e1, e2)
    requires var fs' := CodeArith(c.env.ops, fs3, op, e1, e2).0; fs'.ok && fs'.k <= c.env.k
    ensures var (fs', e') := CodeArith(c.env.ops, fs3, op, e1, e2);
            Ready(c, fs', e', outer, base, Rest(c.env.ops, op, e1.nval, gy)) && e'.kind == VRELOCABLE && Leads(fs3, fs', outer)
  {
    hide Good, Leads, Exp2RK, FreeExp, RegsOK, Emit, GoalFor;
    var (fs4, q, o2) := Exp2RK(fs3, e2);
    var (fs5, p, o1) := Exp2RK(fs4, e1);
    var x := Const(Num(e1.nval));
    RKMeans(c, fs3, e2, outer, base, gy);
    BeginNext(c, fs4, q, outer, base, gy);
    NumeralMeans(c, fs4, outer, fs4.freereg, e1);
    RKMeans(c, fs4, e1, outer, fs4.freereg, GoalFor(c, fs4, outer, x));
    var g := Rest(c.env.ops, op, e1.nval, gy);
    OperandsMeet(c, fs4, q, o2, fs5, p, o1, outer, base, gy, x, ARITH(op, 0, o1, o2), g);
    OtherOrder(fs4, q, o2, fs5, p, o1, base);
    EmitIsCode(fs5.(freereg := base), ARITH(op, 0, o1, o2), ARITH(op, 0, o1, o2));
    LeadsOn(fs3, fs4, Emit(fs5.(freereg := base), [ARITH(op, 0, o1, o2)]), outer);
  }

  // The operand prepared last is the first one of the instruction.
  lemma OtherOrder(fs4: FS, q: Exp, o2: nat, fs5: FS, p: Exp, o1: nat, base: nat)
    requires RegsOK(fs4, q, base) && IsOperand(q, o2) && RegsOK(fs5, p, fs4.freereg) && IsOperand(p, o1)
    requires fs5.nactvar == fs4.nactvar
    ensures (if o1 > o2 then FreeExp(FreeExp(fs5, p), q) else FreeExp(FreeExp(fs5, q), p)) == fs5.(freereg := base)
    ensures if o1 > o2 then OnTop(fs5, p) && OnTop(FreeExp(fs5, p), q) else OnTop(fs5, q) && OnTop(FreeExp(fs5, q), p)
  {}
}
