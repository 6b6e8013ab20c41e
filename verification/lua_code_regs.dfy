// The register discipline: expressions use registers like a stack above the active locals.
module LuaCodeRegs {
  import opened LuaMachine
  import opened LuaCodegen
  import opened LuaCodeMeaning
  import opened LuaCodeLoads
  import opened LuaCodePlace

  // base: the first free register when the expression was begun.
  ghost predicate RegsOK(fs: FS, e: Exp, base: nat) {
    fs.nactvar <= base &&
    match e.kind
    case VNONRELOC =>
      (e.info < fs.nactvar && fs.freereg == base) || (e.info == base && fs.freereg == base + 1)
    case VLOCAL => e.info < fs.nactvar && fs.freereg == base
    case _ => fs.freereg == base
  }

  // A finished descriptor: meaning and register discipline.
  ghost predicate Ready(c: Ctx, fs: FS, e: Exp, outer: set<nat>, base: nat, g: Goal) {
    Good(c, fs, e, outer, base, -1, g) && RegsOK(fs, e, base)
  }

  lemma SetFreereg(c: Ctx, fs: FS, e: Exp, outer: set<nat>, fr: nat, skip: int, g: Goal, free: nat, max: nat, ok: bool)
    requires Good(c, fs, e, outer, fr, skip, g) && fs.nactvar <= free <= max && (ok ==> max < MAXSTACK)
    ensures Good(c, fs.(freereg := free, maxstack := max, ok := ok), e, outer, fr, skip, g)
  {
    var fs' := fs.(freereg := free, maxstack := max, ok := ok);
    assert Outcomes(c, fs', e, outer) == Outcomes(c, fs, e, outer);
  }

  lemma StackFits(c: Ctx, fs: FS, e: Exp, outer: set<nat>, fr: nat, skip: int, g: Goal)
    requires Good(c, fs, e, outer, fr, skip, g)
    ensures fs.nactvar <= fs.freereg <= fs.maxstack && (fs.ok ==> fs.maxstack < MAXSTACK)
  {}

  // Writing at or above 'fr' is no exception to what is kept below it.
  lemma SkipAbove(c: Ctx, fs: FS, e: Exp, outer: set<nat>, fr: nat, skip: int, g: Goal)
    requires Good(c, fs, e, outer, fr, skip, g) && skip >= fr
    ensures Good(c, fs, e, outer, fr, -1, g)
  {}

  lemma PrepareNextReg(fs: FS, e: Exp, base: nat)
    requires RegsOK(fs, e, base) && e.kind != VLOCAL && fs.freereg <= fs.maxstack < MAXSTACK
    ensures var fs1 := ReserveRegs(FreeExp(fs, e), 1);
            fs1.freereg == base + 1 && fs1 == fs.(freereg := base + 1, maxstack := fs1.maxstack, ok := fs1.ok) &&
            base + 1 <= fs1.maxstack && (fs1.ok ==> fs.ok && fs1.maxstack < MAXSTACK)
  {}

  // exp2nextreg
  lemma NextRegMeans(c: Ctx, fs: FS, e0: Exp, outer: set<nat>, base: nat, g: Goal)
    requires Ready(c, fs, e0, outer, base, g)
    requires Exp2NextReg(fs, e0).0.ok && Exp2NextReg(fs, e0).0.k <= c.env.k
    ensures var (fs', e') := Exp2NextReg(fs, e0);
            Ready(c, fs', e', outer, base, g) && e' == Exp(VNONRELOC, base, e0.nval, [], []) && Leads(fs, fs', outer)
  {
    hide Good, Leads, Exp2Reg;
    var e := DischargeVars(e0);
    VarsMeans(c, fs, e0, outer, base, -1, g);
    StackFits(c, fs, e, outer, base, -1, g);
    assert RegsOK(fs, e, base);
    hide RegsOK, FreeExp, ReserveRegs;
    PrepareNextReg(fs, e, base);
    FreeingIsLow(fs, e, base);
    var fs1 := ReserveRegs(FreeExp(fs, e), 1);
    SetFreereg(c, fs, e, outer, base, -1, g, base + 1, fs1.maxstack, fs1.ok);
    Exp2RegMeans(c, fs1, e, base, outer, base, g);
    var res := Exp2Reg(fs1, e, base);
    SkipAbove(c, res.0, res.1, outer, base, base, g);
    PlacedRegs(res.0, res.1, base);
    LeadsFrom(fs, fs1, res.0, outer);
  }

  lemma PlacedRegs(fs: FS, e: Exp, base: nat)
    requires e.kind == VNONRELOC && e.info == base && fs.freereg == base + 1 && fs.nactvar <= base
    ensures RegsOK(fs, e, base)
  {}

  lemma FreeingIsLow(fs: FS, e: Exp, base: nat)
    requires RegsOK(fs, e, base)
    ensures fs.nactvar <= base
  {}

  lemma LeadsFrom(fs: FS, fs1: FS, fs2: FS, outer: set<nat>)
    requires fs1.code == fs.code && Leads(fs1, fs2, outer)
    ensures Leads(fs, fs2, outer)
  {}

  // exp2anyreg
  lemma AnyRegMeans(c: Ctx, fs: FS, e0: Exp, outer: set<nat>, base: nat, g: Goal)
    requires Ready(c, fs, e0, outer, base, g)
    requires Exp2AnyReg(fs, e0).0.ok && Exp2AnyReg(fs, e0).0.k <= c.env.k
    ensures var (fs', e') := Exp2AnyReg(fs, e0);
            Ready(c, fs', e', outer, base, g) && e'.kind == VNONRELOC && e'.t == [] && e'.f == [] && Leads(fs, fs', outer)
  {
    var e := DischargeVars(e0);
    VarsMeans(c, fs, e0, outer, base, -1, g);
    assert RegsOK(fs, e, base);
    StackFits(c, fs, e, outer, base, -1, g);
    NoJumpsNoLists(c, fs, e, outer, base, -1, g);
    hide Good, Leads, Exp2Reg, Exp2NextReg;
    if e.kind == VNONRELOC && !HasJumps(e) {
      SameLeads(c, fs, e, outer, base, -1, g);
    } else if e.kind == VNONRELOC && e.info >= fs.nactvar {
      Exp2RegMeans(c, fs, e, e.info, outer, base, g);
      var res := Exp2Reg(fs, e, e.info);
      SkipAbove(c, res.0, res.1, outer, base, base, g);
    } else {
      NextRegMeans(c, fs, e, outer, base, g);
    }
  }

  lemma SameLeads(c: Ctx, fs: FS, e: Exp, outer: set<nat>, fr: nat, skip: int, g: Goal)
    requires Good(c, fs, e, outer, fr, skip, g)
    ensures Leads(fs, fs, outer)
  {}

  // exp2val
  lemma ValMeans(c: Ctx, fs: FS, e0: Exp, outer: set<nat>, base: nat, g: Goal)
    requires Ready(c, fs, e0, outer, base, g)
    requires Exp2Val(fs, e0).0.ok && Exp2Val(fs, e0).0.k <= c.env.k
    ensures var (fs', e') := Exp2Val(fs, e0);
            Ready(c, fs', e', outer, base, g) && e'.t == [] && e'.f == [] && e'.kind != VLOCAL && Leads(fs, fs', outer)
  {
    NoJumpsNoLists(c, fs, e0, outer, base, -1, g);
    VarsMeans(c, fs, e0, outer, base, -1, g);
    SameLeads(c, fs, e0, outer, base, -1, g);
    hide Good, Leads, Exp2AnyReg;
    if HasJumps(e0) {
      AnyRegMeans(c, fs, e0, outer, base, g);
    }
  }

  // A constant entered in the constant table.
  lemma AsConstant(c: Ctx, fs: FS, e: Exp, outer: set<nat>, base: nat, g: Goal)
    requires Ready(c, fs, e, outer, base, g)
    requires e.kind == VTRUE || e.kind == VFALSE || e.kind == VNIL || e.kind == VKNUM
    requires AddK(fs, ConstantOf(e)).0.k <= c.env.k
    ensures var (fs1, i) := AddK(fs, ConstantOf(e)); var e1 := e.(kind := VK, info := i);
            Ready(c, fs1, e1, outer, base, g) && Leads(fs, fs1, outer) && (i <= |fs.k|)
  {
    var (fs1, i) := AddK(fs, ConstantOf(e));
    var e1 := e.(kind := VK, info := i);
    assert c.env.k[i] == fs1.k[i] == ConstantOf(e);
    MoreConstants(c, fs, fs1.k, e, outer, base, -1, g);
    assert fs1 == fs.(k := fs1.k);
    assert Own(e1) == Own(e);
    assert Outcomes(c, fs1, e1, outer) == Outcomes(c, fs1, e, outer);
  }

  ghost predicate IsOperand(e: Exp, rk: nat) {
    e.t == [] && e.f == [] &&
    ((e.kind == VK && e.info <= MAXINDEXRK && rk == e.info + BITRK) || (e.kind == VNONRELOC && rk == e.info && rk < BITRK))
  }

  // exp2RK
  lemma RKMeans(c: Ctx, fs0: FS, e0: Exp, outer: set<nat>, base: nat, g: Goal)
    requires Ready(c, fs0, e0, outer, base, g)
    requires Exp2RK(fs0, e0).0.ok && Exp2RK(fs0, e0).0.k <= c.env.k
    ensures var (fs', e', rk) := Exp2RK(fs0, e0);
            Ready(c, fs', e', outer, base, g) && IsOperand(e', rk) && Leads(fs0, fs', outer)
  {
    var (fs, e) := Exp2Val(fs0, e0);
    hide Good, Leads, Exp2Val, Exp2AnyReg, RegsOK;
    ValMeans(c, fs0, e0, outer, base, g);
    if (e.kind == VTRUE || e.kind == VFALSE || e.kind == VNIL) && |fs.k| <= MAXINDEXRK {
      AsConstant(c, fs, e, outer, base, g);
      var (fs1, i) := AddK(fs, ConstantOf(e));
      SameCodeLeads(fs0, fs, fs1, outer);
    } else {
      if e.kind == VKNUM { AsConstant(c, fs, e, outer, base, g); }
      var (fs1, i) := if e.kind == VKNUM then AddK(fs, Num(e.nval)) else (fs, e.info);
      var e1 := if e.kind == VKNUM then e.(kind := VK, info := i) else e;
      assert fs1.code == fs.code;
      SameCodeLeads(fs0, fs, fs1, outer);
      if !(e1.kind == VK && e1.info <= MAXINDEXRK) {
        AnyRegMeans(c, fs1, e1, outer, base, g);
        var (fs2, e2) := Exp2AnyReg(fs1, e1);
        LowRegister(c, fs2, e2, outer, base, g);
        LeadsTrans(fs0, fs1, fs2, outer);
      }
    }
  }

  lemma SameCodeLeads(fs: FS, fs1: FS, fs2: FS, outer: set<nat>)
    requires Leads(fs, fs1, outer) && fs2.code == fs1.code
    ensures Leads(fs, fs2, outer) && |fs.code| <= |fs2.code| + 1
  {}

  lemma LowRegister(c: Ctx, fs: FS, e: Exp, outer: set<nat>, base: nat, g: Goal)
    requires Ready(c, fs, e, outer, base, g) && fs.ok && e.kind == VNONRELOC
    ensures e.info < MAXSTACK
  {}
}
