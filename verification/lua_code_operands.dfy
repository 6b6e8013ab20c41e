// Operators with two operands: what is known of the first operand while the second is compiled.
module LuaCodeOperands {
  import opened Common
  import opened LuaMachine
  import opened LuaCodegen
  import opened LuaCodeRuns
  import opened LuaCodeMeaning
  import opened LuaCodePlace
  import opened LuaCodeRegs
  import opened LuaCodeConds

  // ----- before an expression is compiled -----

  ghost function Nothing(): Exp { Lists([], []) }

  ghost function Started(c: Ctx, fs: FS, outer: set<nat>): Outcome {
    Run(c.env, fs.code, outer + Elems(fs.jpc), |fs.code|, c.b, c.s)
  }

  ghost predicate Begun(c: Ctx, fs: FS, outer: set<nat>, base: nat) {
    Shaped(fs, Nothing(), c.b, outer) && fs.freereg == base && fs.nactvar <= base
  }

  // What the code for x is bound to do.  Nothing is claimed of runs that did not make sense so far.
  ghost function GoalFor(c: Ctx, fs: FS, outer: set<nat>, x: Expr): Goal {
    var o := Started(c, fs, outer);
    if !Sensible(o, outer + Elems(fs.jpc), |fs.code|) then Elsewhere(Stuck)
    else if Arrived(o, fs.jpc, |fs.code|) then Wanted(o.regs, Eval(c.env.ops, x, o.regs)) else Elsewhere(o)
  }

  lemma NothingOwned()
    ensures Own(Nothing()) == {}
  {}

  lemma BegunFacts(c: Ctx, fs: FS, outer: set<nat>, base: nat, x: Expr)
    requires Begun(c, fs, outer, base)
    ensures GoalOK(GoalFor(c, fs, outer, x), outer, |fs.code|)
    ensures Started(c, fs, outer).Taken? ==> 0 < Started(c, fs, outer).j
    ensures Leads(fs, fs, outer)
  {
    var o := Started(c, fs, outer);
    match o
    case At(pc, _) => assert pc in Elems(fs.jpc) ==> pc in fs.jpc;
    case Taken(j, _) => assert j in Elems(fs.jpc) ==> j in fs.jpc;
    case _ =>
  }

  // A descriptor without code and without jumps.
  lemma LeafMeans(c: Ctx, fs: FS, e: Exp, outer: set<nat>, base: nat, x: Expr)
    requires Begun(c, fs, outer, base) && e.t == [] && e.f == [] && Settled(e)
    requires (e.kind == VK ==> e.info < |fs.k|) && e.kind != VNONRELOC && (e.kind == VLOCAL ==> e.info < fs.nactvar)
    requires forall r :: EndVal(c.env, fs, e, r) == Eval(c.env.ops, x, r)
    ensures Ready(c, fs, e, outer, base, GoalFor(c, fs, outer, x))
  {
    BegunFacts(c, fs, outer, base, x);
    assert Own(e) == {} == Own(Nothing());
    assert outer + Elems(fs.jpc) + Own(e) == outer + Elems(fs.jpc);
  }

  // After an operand without jumps, the next expression begins.
  lemma BeginNext(c: Ctx, fs: FS, e: Exp, outer: set<nat>, base: nat, g: Goal)
    requires Ready(c, fs, e, outer, base, g) && e.t == [] && e.f == [] && Settled(e)
    ensures Begun(c, fs, outer, fs.freereg) && Started(c, fs, outer) == Outcomes(c, fs, e, outer)
  {
    assert Own(e) == {} == Own(Nothing());
    assert outer + Elems(fs.jpc) + Own(e) == outer + Elems(fs.jpc);
    if !(g.Elsewhere? && g.o.Stuck?) { OutcomeIsSensible(c, fs, e, outer, base, -1, g); }
  }

  ghost predicate Follows(c: Ctx, fs: FS, e: Exp, base: nat, g: Goal, x: Expr, g2: Goal) {
    if g.Elsewhere? then g2 == g
    else
      (g2 == Elsewhere(Err) && g.v.None?) ||
      (g2.Wanted? && EndVal(c.env, fs, e, g2.r) == g.v && AgreeBut(g.r, g2.r, base, -1) && g2.v == Eval(c.env.ops, x, g.r))
  }

  // What the start of the next expression says about the operand.
  lemma NextGoal(c: Ctx, fs: FS, e: Exp, outer: set<nat>, base: nat, g: Goal, x: Expr)
    requires Ready(c, fs, e, outer, base, g) && e.t == [] && e.f == [] && Settled(e) && Scoped(x, fs.nactvar)
    requires !(g.Elsewhere? && g.o.Stuck?)
    ensures Follows(c, fs, e, base, g, x, GoalFor(c, fs, outer, x))
  {
    BeginNext(c, fs, e, outer, base, g);
    var o := Outcomes(c, fs, e, outer);
    if g.Elsewhere? {
      ApartFromJpc(fs, e, c.b, outer);
      NotArrived(fs, outer, g);
    } else if Ends(c.env, fs, e, g.v, o) {
      hide Good;
      assert Agree(g.r, o.regs, fs.nactvar);
      EvalReadsLocals(c.env.ops, x, g.r, o.regs, fs.nactvar);
    }
  }

  // ----- two operands -----

  // The goal of an operation, given that of its first operand and its second operand's expression.
  ghost predicate Combined(ops: Ops, g: Goal, g1: Goal, y: Expr) {
    if g1.Elsewhere? then g == g1
    else g.Wanted? && g.r == g1.r && (g1.v.None? || Eval(ops, y, g1.r).None? ==> g.v.None?)
  }

  // Both operands have their values on arrival.
  ghost function BothValues(c: Ctx, fs: FS, p: Exp, q: Exp, g1: Goal, y: Expr): Regs -> bool {
    r => g1.Wanted? && EndVal(c.env, fs, p, r) == g1.v && EndVal(c.env, fs, q, r) == Eval(c.env.ops, y, g1.r)
  }

  lemma OperandKept(c: Ctx, fs: FS, p: Exp, rk: nat, base: nat, fs': FS, r: Regs, r': Regs)
    requires IsOperand(p, rk) && RegsOK(fs, p, base) && AgreeBut(r, r', fs.freereg, -1)
    ensures EndVal(c.env, fs', p, r') == EndVal(c.env, fs, p, r)
  {}

  lemma BothMeans(c: Ctx, fs1: FS, p: Exp, o1: nat, fs: FS, q: Exp, o2: nat, outer: set<nat>, base: nat, g1: Goal,
                  y: Expr, g: Goal)
    requires Ready(c, fs1, p, outer, base, g1) && IsOperand(p, o1) && Scoped(y, fs1.nactvar)
    requires Ready(c, fs, q, outer, fs1.freereg, GoalFor(c, fs1, outer, y)) && IsOperand(q, o2) &&
             Combined(c.env.ops, g, g1, y)
    requires |fs1.code| <= |fs.code| + 1
    ensures Conds(c, fs, Nothing(), outer, base, g, BothValues(c, fs, p, q, g1, y))
    ensures GoalOK(g, outer, |fs.code|)
  {
    var g2 := GoalFor(c, fs1, outer, y);
    assert Own(q) == {} == Own(Nothing());
    assert outer + Elems(fs.jpc) + Own(q) == outer + Elems(fs.jpc);
    GoalStillOK(c, fs1, p, fs, q, outer, base, g1, g2);
    if !(g1.Elsewhere? && g1.o.Stuck?) {
      NextGoal(c, fs1, p, outer, base, g1, y);
      var o := Outcomes(c, fs, q, outer);
      assert o == Run(c.env, fs.code, outer + Elems(fs.jpc) + Own(Nothing()), |fs.code|, c.b, c.s);
      if g2.Wanted? && Ends(c.env, fs, q, g2.v, o) {
        FreeregAbove(fs1, p, base);
        OperandKept(c, fs1, p, o1, base, fs, g2.r, o.regs);
      }
    }
  }

  lemma FreeregAbove(fs: FS, e: Exp, base: nat)
    requires RegsOK(fs, e, base)
    ensures fs.freereg >= base
  {}

  lemma GoalStillOK(c: Ctx, fs1: FS, p: Exp, fs: FS, q: Exp, outer: set<nat>, base: nat, g1: Goal, g2: Goal)
    requires Ready(c, fs1, p, outer, base, g1) && Ready(c, fs, q, outer, fs1.freereg, g2)
    ensures GoalOK(g1, outer, |fs.code|)
  {}

  // An operation whose first operand was a numeral kept aside: its goal follows from that of the rest.
  ghost predicate ChainGoal(c: Ctx, fs1: FS, p: Exp, g1: Goal, outer: set<nat>, y: Expr, g2: Goal, g: Goal) {
    var gy := GoalFor(c, fs1, outer, y);
    (gy.Elsewhere? ==> g2 == gy) && (gy.Wanted? ==> g2.Wanted? && g2.r == gy.r) &&
    if g1.Elsewhere? then g == g1
    else
      g.Wanted? && g.r == g1.r && (g1.v.None? ==> g.v.None?) &&
      (gy.Wanted? && g1.v == EndVal(c.env, fs1, p, gy.r) && gy.v == Eval(c.env.ops, y, g1.r) ==> g2.v == g.v)
  }

  lemma Chain(c: Ctx, fs1: FS, p: Exp, outer: set<nat>, base: nat, g1: Goal, y: Expr, fs: FS, e: Exp, g2: Goal, g: Goal)
    requires Ready(c, fs1, p, outer, base, g1) && p.t == [] && p.f == [] && Settled(p) && Scoped(y, fs1.nactvar)
    requires Good(c, fs, e, outer, base, -1, g2) && ChainGoal(c, fs1, p, g1, outer, y, g2, g)
    ensures Good(c, fs, e, outer, base, -1, g)
  {
    GoalHere(c, fs, e, outer, base, g1, g2);
    if !(g1.Elsewhere? && g1.o.Stuck?) {
      NextGoal(c, fs1, p, outer, base, g1, y);
    }
    if g1.Elsewhere? {
      ElsewhereStill(c, fs1, p, outer, base, g1, fs, e);
    }
  }

  lemma GoalHere(c: Ctx, fs: FS, e: Exp, outer: set<nat>, base: nat, g1: Goal, g2: Goal)
    requires Good(c, fs, e, outer, base, -1, g2)
    ensures forall j :: j in outer ==> 0 < j < |fs.code|
  {}

  lemma ElsewhereStill(c: Ctx, fs1: FS, p: Exp, outer: set<nat>, base: nat, g1: Goal, fs: FS, e: Exp)
    requires Ready(c, fs1, p, outer, base, g1) && g1.Elsewhere? && forall j :: j in outer ==> 0 < j < |fs.code|
    ensures GoalOK(g1, outer, |fs.code|)
  {}
}
