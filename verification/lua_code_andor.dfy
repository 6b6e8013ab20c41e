// 'and' and 'or': the second operand is compiled while the first one's exits are pending, and
// takes them over.
module LuaCodeAndOr {
  import opened Common
  import opened LuaMachine
  import opened LuaCodegen
  import opened LuaCodeRuns
  import opened LuaCodeMeaning
  import opened LuaCodeLoads
  import opened LuaCodeClose
  import opened LuaCodePlace
  import opened LuaCodeRegs
  import opened LuaCodeConds
  import opened LuaCodeOperands

  // flag: 'and', which goes on when true; else 'or'.
  ghost function AndOrGoal(ops: Ops, flag: bool, g: Goal, y: Expr): Goal {
    if g.Elsewhere? then g
    else Wanted(g.r, if g.v.None? || IsFalse(g.v.value) == flag then g.v else Eval(ops, y, g.r))
  }

  // The exits of the first operand.
  ghost function Exits(l: seq<nat>, flag: bool): Exp { if flag then Lists([], l) else Lists(l, []) }

  // The second operand's descriptor with those exits.
  ghost function With(e: Exp, l: seq<nat>, flag: bool): Exp { if flag then e.(f := e.f + l) else e.(t := e.t + l) }

  lemma RightBegins(c: Ctx, fs: FS, l: seq<nat>, outer: set<nat>, base: nat, g: Goal, flag: bool)
    requires Tested(c, fs, Exits(l, flag), outer, base, g, flag)
    ensures Begun(c, fs, outer + Elems(l), base)
    ensures Started(c, fs, outer + Elems(l)) ==
            Run(c.env, fs.code, outer + Elems(fs.jpc) + Own(Exits(l, flag)), |fs.code|, c.b, c.s)
  {
    assert Own(Exits(l, flag)) == Elems(l) && Own(Nothing()) == {};
    assert outer + Elems(l) + Elems(fs.jpc) == outer + Elems(fs.jpc) + Own(Exits(l, flag));
    assert outer + Elems(l) + Elems(fs.jpc) + Own(Nothing()) == outer + Elems(fs.jpc) + Own(Exits(l, flag));
  }

  // What the second operand is bound to do, by what became of the first.
  ghost predicate RightGoal(c: Ctx, code: seq<Instr>, l: seq<nat>, base: nat, g: Goal, flag: bool, y: Expr, g2: Goal) {
    if g.Elsewhere? then g2 == g
    else
      (g2 == Elsewhere(Err) && g.v.None?) ||
      (g2.Elsewhere? && g2.o.Taken? && g2.o.j in l && TakenVal(code, g2.o.j, g2.o.regs, g.v, !flag) && AgreeBut(g.r, g2.o.regs, base, -1)) ||
      (g2.Wanted? && Truth(g.v, flag) && g2.v == Eval(c.env.ops, y, g.r) && AgreeBut(g.r, g2.r, base, -1))
  }

  lemma RightGoalOK(c: Ctx, fs: FS, l: seq<nat>, outer: set<nat>, base: nat, g: Goal, flag: bool, y: Expr)
    requires Tested(c, fs, Exits(l, flag), outer, base, g, flag) && !(g.Elsewhere? && g.o.Stuck?) &&
             Scoped(y, fs.nactvar)
    ensures RightGoal(c, fs.code, l, base, g, flag, y, GoalFor(c, fs, outer + Elems(l), y))
  {
    var arrival := (_: Regs) => g.Wanted? && Truth(g.v, flag);
    var e := Exits(l, flag);
    RightBegins(c, fs, l, outer, base, g, flag);
    WeakenConds(c, fs, e, outer, base, g, _ => g.Wanted? && Truth(g.v, flag), arrival);
    CondsSensible(c, fs, e, outer, base, g, arrival);
    ApartFromJpc(fs, e, c.b, outer);
    ListFromJpc(fs, l, c.b, outer, flag);
    hide Shaped, Run;
    var o := Started(c, fs, outer + Elems(l));
    assert outer + Elems(l) + Elems(fs.jpc) == outer + Elems(fs.jpc) + Own(e) by { assert Own(e) == Elems(l); }
    if g.Elsewhere? {
      NotArrived(fs, outer, g);
    } else if Arrived(o, fs.jpc, |fs.code|) {
      ArrivedNotLeft(fs, e, c.b, outer, g.v, o);
      assert Agree(g.r, o.regs, fs.nactvar);
      EvalReadsLocals(c.env.ops, y, g.r, o.regs, fs.nactvar);
    }
  }

  lemma ListFromJpc(fs: FS, l: seq<nat>, b: nat, outer: set<nat>, flag: bool)
    requires Shaped(fs, Exits(l, flag), b, outer)
    ensures Elems(l) !! Elems(fs.jpc) && Elems(l) !! outer && Distinct(l)
  {
    assert Own(Exits(l, flag)) == Elems(l);
  }

  lemma WithShape(fs: FS, e: Exp, l: seq<nat>, b: nat, outer: set<nat>, flag: bool)
    requires Shaped(fs, e, b, outer + Elems(l)) && Distinct(l) && Elems(l) !! outer
    ensures Shaped(fs, With(e, l, flag), b, outer)
    ensures Own(With(e, l, flag)) == Own(e) + Elems(l)
    ensures outer + Elems(l) + Elems(fs.jpc) + Own(e) == outer + Elems(fs.jpc) + Own(With(e, l, flag))
  {
    var e' := With(e, l, flag);
    var l1 := if flag then e.f else e.t;
    assert Elems(l1 + l) == Elems(l1) + Elems(l);
    assert Own(e') == Own(e) + Elems(l);
    assert outer + Elems(l) + Elems(fs.jpc) + Own(e) == outer + Elems(fs.jpc) + Own(e');
    assert Distinct(l1 + l) by {
      forall i, j | 0 <= i < j < |l1 + l| ensures (l1 + l)[i] != (l1 + l)[j] {
        if i < |l1| <= j { assert l1[i] in Elems(l1) && l[j - |l1|] in Elems(l); }
      }
    }
    assert Controlled(fs.code, Own(e'));
  }

  lemma WithMeans(c: Ctx, fs2: FS, l: seq<nat>, fs3: FS, e2: Exp, outer: set<nat>, base: nat, g: Goal, flag: bool,
                  y: Expr)
    requires Tested(c, fs2, Exits(l, flag), outer, base, g, flag) && Scoped(y, fs2.nactvar)
    requires Good(c, fs3, e2, outer + Elems(l), base, -1, GoalFor(c, fs2, outer + Elems(l), y))
    requires Leads(fs2, fs3, outer + Elems(l))
    ensures Good(c, fs3, With(e2, l, flag), outer, base, -1, AndOrGoal(c.env.ops, flag, g, y))
  {
    hide Shaped, Run, Sem, GoalOK;
    var g2 := GoalFor(c, fs2, outer + Elems(l), y);
    ListFromJpc(fs2, l, c.b, outer, flag);
    WithShape(fs3, e2, l, c.b, outer, flag);
    WithControls(fs3, e2, c.b, outer + Elems(l));
    StillElsewhere(c, fs2, l, outer, base, g, flag, fs3);
    if !(g.Elsewhere? && g.o.Stuck?) {
      RightGoalOK(c, fs2, l, outer, base, g, flag, y);
      SameOutcomes(c, fs3, e2, l, outer, flag);
      KeptTests(fs2, fs3, outer, Elems(l));
      WithSem(c, fs2.code, fs3, e2, l, outer, base, g, flag, y, g2);
    } else {
      AnySem(c, fs3, With(e2, l, flag), outer, base, g);
    }
  }

  lemma AnySem(c: Ctx, fs: FS, e: Exp, outer: set<nat>, base: nat, g: Goal)
    requires g == Elsewhere(Stuck)
    ensures Sem(c, fs, e, outer, base, -1, g)
  {}

  lemma KeptTests(fs2: FS, fs3: FS, outer: set<nat>, more: set<nat>)
    requires Leads(fs2, fs3, outer + more)
    ensures KeepsControls(fs2.code, fs3.code, outer + more)
  {}

  lemma WithSem(c: Ctx, code2: seq<Instr>, fs: FS, e: Exp, l: seq<nat>, outer: set<nat>, base: nat, g: Goal, flag: bool,
                y: Expr, g2: Goal)
    requires Sem(c, fs, e, outer + Elems(l), base, -1, g2) && RightGoal(c, code2, l, base, g, flag, y, g2)
    requires Outcomes(c, fs, With(e, l, flag), outer) == Outcomes(c, fs, e, outer + Elems(l))
    requires KeepsControls(code2, fs.code, outer + Elems(l)) && Controlled(fs.code, outer + Elems(l))
    ensures Sem(c, fs, With(e, l, flag), outer, base, -1, AndOrGoal(c.env.ops, flag, g, y))
  {
    hide Run;
    var e' := With(e, l, flag);
    var o := Outcomes(c, fs, e, outer + Elems(l));
    if g2.Wanted? { MoreLeaves(c.env, fs, e, l, flag, g2.v, o); }
    else if g.Wanted? && g2.o.Taken? {
      assert g2.o.j in Elems(l);
      assert g2.o.j in (if flag then e'.f else e'.t);
    }
  }

  lemma WithControls(fs: FS, e: Exp, b: nat, outer: set<nat>)
    requires Shaped(fs, e, b, outer)
    ensures Controlled(fs.code, outer)
  {}

  lemma SameOutcomes(c: Ctx, fs: FS, e: Exp, l: seq<nat>, outer: set<nat>, flag: bool)
    requires outer + Elems(l) + Elems(fs.jpc) + Own(e) == outer + Elems(fs.jpc) + Own(With(e, l, flag))
    ensures Outcomes(c, fs, With(e, l, flag), outer) == Outcomes(c, fs, e, outer + Elems(l))
  {}

  lemma MoreLeaves(env: Env, fs: FS, e: Exp, l: seq<nat>, flag: bool, v: Option<Value>, o: Outcome)
    ensures Leaves(fs.code, e, v, o) ==> Leaves(fs.code, With(e, l, flag), v, o)
    ensures Ends(env, fs, e, v, o) ==> Ends(env, fs, With(e, l, flag), v, o)
  {}

  lemma StillElsewhere(c: Ctx, fs2: FS, l: seq<nat>, outer: set<nat>, base: nat, g: Goal, flag: bool, fs3: FS)
    requires Tested(c, fs2, Exits(l, flag), outer, base, g, flag) && Controlled(fs3.code, outer + Elems(l))
    ensures forall ops: Ops, y: Expr :: GoalOK(AndOrGoal(ops, flag, g, y), outer, |fs3.code|)
  {}

  // luaK_posfix for 'and' and 'or'
  lemma AndOrMeans(c: Ctx, fs2: FS, e1: Exp, fs3: FS, e2: Exp, outer: set<nat>, base: nat, g: Goal, op: BinOp, y: Expr)
    requires op.OprAnd? || op.OprOr?
    requires var flag := op.OprAnd?; var l := if flag then e1.f else e1.t;
             Tested(c, fs2, Exits(l, flag), outer, base, g, flag) && Scoped(y, fs2.nactvar) &&
             Ready(c, fs3, e2, outer + Elems(l), base, GoalFor(c, fs2, outer + Elems(l), y)) && Leads(fs2, fs3, outer + Elems(l))
    ensures var (fs', e') := Posfix(c.env.ops, fs3, op, e1, e2);
            Ready(c, fs', e', outer, base, AndOrGoal(c.env.ops, op.OprAnd?, g, y)) && Leads(fs2, fs', outer)
  {
    hide Good, Leads, Concat, Tested, GoalFor, KeepsControls;
    var flag := op.OprAnd?;
    var l := if flag then e1.f else e1.t;
    var e := DischargeVars(e2);
    VarsMeans(c, fs3, e2, outer + Elems(l), base, -1, GoalFor(c, fs2, outer + Elems(l), y));
    WithMeans(c, fs2, l, fs3, e, outer, base, g, flag, y);
    var e', l1 := With(e, l, flag), if flag then e.f else e.t;
    assert Elems(l1) <= Own(e') by {
      assert Elems(l1) <= Own(e);
      assert forall j :: j in l1 ==> j in l1 + l;
    }
    ConcatMeans(c, fs3, e', outer, base, -1, AndOrGoal(c.env.ops, flag, g, y), l1, l);
    var fs' := Concat(fs3, l1, l);
    assert Posfix(c.env.ops, fs3, op, e1, e2) == (fs', e');
    FewerLeads(fs2, fs3, outer, Elems(l));
    FewerOuter(fs3.code, fs'.code, outer, Own(e'));
    GoodLeads(c, fs3, fs', e', outer, base, -1, AndOrGoal(c.env.ops, flag, g, y));
    SameLengthLeads(fs2, fs3, fs', outer);
  }

  lemma FewerLeads(fs: FS, fs': FS, outer: set<nat>, more: set<nat>)
    requires Leads(fs, fs', outer + more)
    ensures Leads(fs, fs', outer)
  {}

  lemma SameLengthLeads(fs: FS, fs1: FS, fs2: FS, outer: set<nat>)
    requires Leads(fs, fs1, outer) && Leads(fs1, fs2, outer) && |fs2.code| == |fs1.code|
    ensures Leads(fs, fs2, outer)
  {}
}
