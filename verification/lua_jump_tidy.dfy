// Every step of the generator keeps all pending jump lists well-formed chains, apart from each
// other, and leaves the jumps of other descriptors alone.
module LuaJumpTidy {
  import opened Common
  import opened LuaMachine
  import opened LuaCodegen
  import opened LuaCodeRuns
  import opened LuaCodeMeaning
  import opened LuaCodeLoads
  import opened LuaCodeClose
  import opened LuaCodePlace
  import opened LuaCodeRegs
  import opened LuaCodeConds
  import opened LuaCodeBranches
  import opened LuaCodeNot
  import opened LuaJumpLists

  // The lists are finite chains in the code, without a member in common; registers are used as a
  // stack above 'base'.
  ghost predicate Tidy(fs: FS, e: Exp, b: nat, outer: set<nat>, base: nat) {
    Shaped(fs, e, b, outer) && RegsOK(fs, e, base) && LinksOK(fs, e)
  }

  ghost predicate Step(fs: FS, fs': FS, e': Exp, b: nat, outer: set<nat>, base: nat) {
    Tidy(fs', e', b, outer, base) && SameJumps(fs.code, fs'.code, outer)
  }

  // Shapes do not depend on what is run: any context will do, with nothing wanted.
  ghost function Any(k: seq<Value>, b: nat): Ctx {
    Ctx(Env(Ops((o, x, y) => 0, x => 0, x => false, (o, x, y) => None, (o, x) => None, (o, x, y) => None), k), b, map[])
  }

  ghost function Idle(): Goal { Elsewhere(Stuck) }

  lemma ShapeIsGood(c: Ctx, fs: FS, e: Exp, outer: set<nat>, fr: nat, skip: int)
    ensures Good(c, fs, e, outer, fr, skip, Idle()) <==> Shaped(fs, e, c.b, outer)
  {}

  lemma TidyReady(c: Ctx, fs: FS, e: Exp, outer: set<nat>, base: nat)
    requires Tidy(fs, e, c.b, outer, base)
    ensures Ready(c, fs, e, outer, base, Idle())
  {}

  lemma StepTrans(fs: FS, fs1: FS, fs2: FS, e: Exp, b: nat, outer: set<nat>, base: nat)
    requires SameJumps(fs.code, fs1.code, outer) && Step(fs1, fs2, e, b, outer, base)
    ensures Step(fs, fs2, e, b, outer, base)
  {}

  lemma TidyVars(fs: FS, e: Exp, b: nat, outer: set<nat>, base: nat)
    requires Tidy(fs, e, b, outer, base)
    ensures Tidy(fs, DischargeVars(e), b, outer, base)
  {
    assert Own(DischargeVars(e)) == Own(e);
  }

  lemma NoStep(fs: FS, e: Exp, b: nat, outer: set<nat>, base: nat)
    requires Tidy(fs, e, b, outer, base)
    ensures Step(fs, fs, e, b, outer, base)
  {}

  // ----- into registers -----

  lemma NextRegTidy(fs: FS, e0: Exp, b: nat, outer: set<nat>, base: nat)
    requires Tidy(fs, e0, b, outer, base) && Exp2NextReg(fs, e0).0.ok
    ensures var (fs', e') := Exp2NextReg(fs, e0); Step(fs, fs', e', b, outer, base) && e'.t == [] && e'.f == []
  {
    hide Good, Exp2Reg, RegsOK, Leads, Shaped, LinksOK, Ready, Discharge2Reg;
    var (fs', e') := Exp2NextReg(fs, e0);
    var c := Any(fs'.k, b);
    TidyReady(c, fs, e0, outer, base);
    NextRegMeans(c, fs, e0, outer, base, Idle());
    ReadyShape(c, fs', e', outer, base);
    TidyVars(fs, e0, b, outer, base);
    PlacedLinks(fs, DischargeVars(e0), b, outer, base);
  }

  lemma ReadyShape(c: Ctx, fs: FS, e: Exp, outer: set<nat>, base: nat)
    requires Ready(c, fs, e, outer, base, Idle())
    ensures Shaped(fs, e, c.b, outer) && RegsOK(fs, e, base)
  {}

  lemma PlacedLinks(fs: FS, e: Exp, b: nat, outer: set<nat>, base: nat)
    requires Tidy(fs, e, b, outer, base) && Exp2NextReg(fs, e).0.ok && e.kind != VLOCAL
    ensures var (fs', e') := Exp2NextReg(fs, e); SameJumps(fs.code, fs'.code, outer) && LinksOK(fs', e')
  {
    hide Good, Exp2Reg, Leads, LinksOK, Discharge2Reg, FreeExp, ReserveRegs;
    var fs1 := ReserveRegs(FreeExp(fs, e), 1);
    var c := Any(Exp2NextReg(fs, e).0.k, b);
    TidyReady(c, fs, e, outer, base);
    StackFits(c, fs, e, outer, base, -1, Idle());
    PrepareNextReg(fs, e, base);
    FreeingIsLow(fs, e, base);
    SetFreereg(c, fs, e, outer, base, -1, Idle(), base + 1, fs1.maxstack, fs1.ok);
    ShapeIsGood(c, fs1, e, outer, base, -1);
    SameLinks(fs, fs1, e);
    DischargedShape(fs1, e, b, outer, base);
    Exp2RegLinks(fs1, e, b, outer, base);
  }

  lemma SameLinks(fs: FS, fs1: FS, e: Exp)
    requires LinksOK(fs, e) && fs1.code == fs.code && fs1.jpc == fs.jpc
    ensures LinksOK(fs1, e)
  {}

  lemma DischargedShape(fs: FS, e: Exp, b: nat, outer: set<nat>, reg: nat)
    requires Shaped(fs, e, b, outer)
    ensures var (fs1, e1) := Discharge2Reg(fs, e, reg); Shaped(fs1, e1, b, outer)
  {
    hide Good, Discharge2Reg, Shaped;
    var (fs1, e1) := Discharge2Reg(fs, e, reg);
    if e.kind == VJMP {
      JumpNotDischarged(fs, e, reg);
    } else {
      var c := Any(fs1.k, b);
      ShapeIsGood(c, fs, e, outer, 0, -1);
      DischargeMeans(c, fs, e, reg, outer, 0, Idle());
      ShapeIsGood(c, fs1, e1, outer, 0, reg);
    }
  }

  lemma JumpNotDischarged(fs: FS, e: Exp, reg: nat)
    requires e.kind == VJMP
    ensures Discharge2Reg(fs, e, reg) == (fs, e)
  {}

  lemma AnyRegTidy(fs: FS, e0: Exp, b: nat, outer: set<nat>, base: nat)
    requires Tidy(fs, e0, b, outer, base) && Exp2AnyReg(fs, e0).0.ok
    ensures var (fs', e') := Exp2AnyReg(fs, e0); Step(fs, fs', e', b, outer, base) && e'.t == [] && e'.f == [] && e'.kind == VNONRELOC
  {
    hide Good, Exp2Reg, Leads, Shaped, LinksOK, Ready, Discharge2Reg, Exp2NextReg;
    var (fs', e') := Exp2AnyReg(fs, e0);
    var c := Any(fs'.k, b);
    var e := DischargeVars(e0);
    TidyReady(c, fs, e0, outer, base);
    AnyRegMeans(c, fs, e0, outer, base, Idle());
    ReadyShape(c, fs', e', outer, base);
    TidyVars(fs, e0, b, outer, base);
    if e.kind == VNONRELOC && !HasJumps(e) {
      NoStep(fs, e, b, outer, base);
    } else if e.kind == VNONRELOC && e.info >= fs.nactvar {
      DischargedShape(fs, e, b, outer, e.info);
      Exp2RegLinks(fs, e, b, outer, e.info);
    } else {
      NextRegTidy(fs, e, b, outer, base);
      SameNextReg(fs, e0);
    }
  }

  lemma SameNextReg(fs: FS, e: Exp)
    ensures Exp2NextReg(fs, DischargeVars(e)) == Exp2NextReg(fs, e)
  {}

  lemma ValTidy(fs: FS, e0: Exp, b: nat, outer: set<nat>, base: nat)
    requires Tidy(fs, e0, b, outer, base) && Exp2Val(fs, e0).0.ok
    ensures var (fs', e') := Exp2Val(fs, e0); Step(fs, fs', e', b, outer, base) && e'.t == [] && e'.f == [] && e'.kind != VLOCAL
  {
    ListsIfJumps(fs, e0, b, outer);
    hide Shaped, LinksOK, Exp2AnyReg;
    if HasJumps(e0) {
      AnyRegTidy(fs, e0, b, outer, base);
    } else {
      TidyVars(fs, e0, b, outer, base);
      NoStep(fs, DischargeVars(e0), b, outer, base);
    }
  }

  lemma ListsIfJumps(fs: FS, e: Exp, b: nat, outer: set<nat>)
    requires Shaped(fs, e, b, outer)
    ensures !HasJumps(e) ==> e.t == [] && e.f == []
  {
    JumpsAreLists(fs, e, outer);
  }

  lemma ConstantTidy(fs: FS, e: Exp, b: nat, outer: set<nat>, base: nat)
    requires Tidy(fs, e, b, outer, base)
    requires e.kind == VTRUE || e.kind == VFALSE || e.kind == VNIL || e.kind == VKNUM
    ensures var (fs1, i) := AddK(fs, ConstantOf(e)); Step(fs, fs1, e.(kind := VK, info := i), b, outer, base)
  {
    var (fs1, i) := AddK(fs, ConstantOf(e));
    assert Own(e.(kind := VK, info := i)) == Own(e);
  }

  lemma RKTidy(fs0: FS, e0: Exp, b: nat, outer: set<nat>, base: nat)
    requires Tidy(fs0, e0, b, outer, base) && Exp2RK(fs0, e0).0.ok
    ensures var (fs', e', rk) := Exp2RK(fs0, e0); Step(fs0, fs', e', b, outer, base) && IsOperand(e', rk)
  {
    hide Shaped, LinksOK, Exp2Val, Exp2AnyReg, RegsOK, Good;
    var (fs, e) := Exp2Val(fs0, e0);
    ValTidy(fs0, e0, b, outer, base);
    if (e.kind == VTRUE || e.kind == VFALSE || e.kind == VNIL) && |fs.k| <= MAXINDEXRK {
      ConstantTidy(fs, e, b, outer, base);
      IndexLow(fs, ConstantOf(e));
    } else {
      if e.kind == VKNUM { ConstantTidy(fs, e, b, outer, base); }
      var (fs1, i) := if e.kind == VKNUM then AddK(fs, Num(e.nval)) else (fs, e.info);
      var e1 := if e.kind == VKNUM then e.(kind := VK, info := i) else e;
      if !(e1.kind == VK && e1.info <= MAXINDEXRK) {
        AnyRegTidy(fs1, e1, b, outer, base);
        var (fs2, e2) := Exp2AnyReg(fs1, e1);
        TidyReady(Any([], b), fs2, e2, outer, base);
        LowRegister(Any([], b), fs2, e2, outer, base, Idle());
      }
    }
  }

  lemma IndexLow(fs: FS, v: Value)
    ensures AddK(fs, v).1 <= |fs.k|
  {}

  // discharge2anyreg, lists and all
  lemma KeepListsTidy(fs: FS, e: Exp, b: nat, outer: set<nat>, base: nat)
    requires Tidy(fs, e, b, outer, base) && e.kind != VJMP && e.kind != VLOCAL && Discharge2AnyReg(fs, e).0.ok
    ensures var (fs1, e1) := Discharge2AnyReg(fs, e); Step(fs, fs1, e1, b, outer, base) && e1 == InReg(e, e1.info)
  {
    hide Good, Leads, Discharge2Reg, Shaped, LinksOK, Ready, ReserveRegs;
    var (fs1, e1) := Discharge2AnyReg(fs, e);
    var c := Any(fs1.k, b);
    TidyReady(c, fs, e, outer, base);
    AnyRegKeepsLists(c, fs, e, outer, base, Idle());
    ReadyShape(c, fs1, e1, outer, base);
    if e.kind != VNONRELOC { ReservedLinks(fs, e, b, outer, base); }
    else { NoStep(fs, e, b, outer, base); }
  }

  lemma ReservedLinks(fs: FS, e: Exp, b: nat, outer: set<nat>, base: nat)
    requires Tidy(fs, e, b, outer, base) && ReserveRegs(fs, 1).ok
    ensures var fs1 := ReserveRegs(fs, 1); var (fs2, e2) := Discharge2Reg(fs1, e, fs1.freereg - 1);
            SameJumps(fs.code, fs2.code, outer) && LinksOK(fs2, e2)
  {
    hide Shaped, LinksOK, Discharge2Reg, Own, ReserveRegs, SameJumps;
    var fs1 := ReserveRegs(fs, 1);
    ReservedShape(fs, e, b, outer, base);
    DischargeLinks(fs1, e, b, outer, fs1.freereg - 1);
    SameFewer(fs.code, Discharge2Reg(fs1, e, fs1.freereg - 1).0.code, outer + Own(e), outer);
  }

  lemma ReservedShape(fs: FS, e: Exp, b: nat, outer: set<nat>, base: nat)
    requires Tidy(fs, e, b, outer, base) && ReserveRegs(fs, 1).ok
    ensures var fs1 := ReserveRegs(fs, 1); Shaped(fs1, e, b, outer) && LinksOK(fs1, e) && fs1.code == fs.code && fs1.freereg > 0
  {
    var fs1 := ReserveRegs(fs, 1);
    assert fs1.code == fs.code && fs1.jpc == fs.jpc;
  }

  // freeexp on a finished descriptor
  lemma FreeTidy(fs: FS, e: Exp, b: nat, outer: set<nat>, base: nat)
    requires Tidy(fs, e, b, outer, base) && fs.ok
    ensures FreeExp(fs, e) == fs.(freereg := base) && Shaped(FreeExp(fs, e), e, b, outer) && LinksOK(FreeExp(fs, e), e)
    ensures fs.nactvar <= base
  {}

  // ----- conditions -----

  // Only lists are left of a condition.
  ghost predicate CondStep(fs: FS, fs': FS, e': Exp, b: nat, outer: set<nat>, base: nat) {
    Shaped(fs', Lists(e'.t, e'.f), b, outer) && LinksOK(fs', Lists(e'.t, e'.f)) && fs'.freereg == base &&
    fs'.nactvar <= base &&
    SameJumps(fs.code, fs'.code, outer)
  }

  lemma TestLinks(fs: FS, e: Exp, b: nat, outer: set<nat>, test: Instr, cond: bool)
    requires Shaped(fs, e, b, outer) && Settled(e) && LinksOK(fs, e) && TMode(test)
    ensures var fs' := Emit(fs, [test, JMP(NO_JUMP)]); var n := |fs.code|;
            Shaped(fs', Joined(e, [n + 1], cond), b, outer) && SameJumps(fs.code, fs'.code, outer) &&
            Linked(fs'.code, e.t) && Linked(fs'.code, e.f) && Linked(fs'.code, [n + 1]) && fs'.jpc == []
  {
    hide Shaped, LinksOK, Linked, SameJumps, Own, Emit;
    TestShape(fs, e, test, b, outer, cond);
    EmitLinks(fs, e, b, outer, [test, JMP(NO_JUMP)], Lists(e.t, e.f));
    var fs' := Emit(fs, [test, JMP(NO_JUMP)]);
    SameFewer(fs.code, fs'.code, outer + Own(e), outer);
    NewJumpAt(fs, test);
    LinkedLists(fs', Lists(e.t, e.f));
  }

  lemma NewJumpAt(fs: FS, test: Instr)
    ensures var fs' := Emit(fs, [test, JMP(NO_JUMP)]); Linked(fs'.code, [|fs.code| + 1]) && fs'.jpc == []
  {
    var fs' := Emit(fs, [test, JMP(NO_JUMP)]);
    assert fs'.code[|fs.code| + 1] == JMP(NO_JUMP);
  }

  // A branch: its jump is not yet linked to the list it joins.
  ghost predicate BranchStep(fs: FS, fs': FS, e: Exp, pc: seq<nat>, cond: bool, b: nat, outer: set<nat>, base: nat) {
    Shaped(fs', Joined(e, pc, cond), b, outer) && Linked(fs'.code, fs'.jpc) && Linked(fs'.code, e.t) &&
    Linked(fs'.code, e.f) &&
    Linked(fs'.code, pc) && fs'.freereg == base && fs'.nactvar <= base && SameJumps(fs.code, fs'.code, outer)
  }

  lemma JumpOnCondTidy(fs: FS, e: Exp, b: nat, outer: set<nat>, base: nat, cond: bool)
    requires Tidy(fs, e, b, outer, base) && e.kind != VJMP && e.kind != VLOCAL && JumpOnCond(fs, e, cond).0.ok
    ensures var (fs', pc) := JumpOnCond(fs, e, cond); BranchStep(fs, fs', e, pc, cond, b, outer, base)
  {
    hide Shaped, LinksOK, Discharge2AnyReg, Emit, FreeExp, Linked, SameJumps;
    RelocLow(fs, e, b, outer);
    if e.kind == VRELOCABLE && fs.code[e.info].NOT? {
      NotTested(fs, e, b, outer, base, cond);
    } else {
      var (fs1, e1) := Discharge2AnyReg(fs, e);
      KeepListsTidy(fs, e, b, outer, base);
      FreeTidy(fs1, e1, b, outer, base);
      var fs2 := FreeExp(fs1, e1);
      var test := TESTSET(NO_REG, e1.info, cond);
      EmitIsCode(fs2, test, test);
      TestLinks(fs2, e1, b, outer, test, cond);
      EmitFields(fs2, [test, JMP(NO_JUMP)]);
      NoList(Emit(fs2, [test, JMP(NO_JUMP)]).code);
      SameTrans(fs.code, fs2.code, Emit(fs2, [test, JMP(NO_JUMP)]).code, outer);
      assert Joined(e1, [|fs2.code| + 1], cond) == Joined(e, [|fs2.code| + 1], cond);
    }
  }

  lemma RelocLow(fs: FS, e: Exp, b: nat, outer: set<nat>)
    requires Shaped(fs, e, b, outer)
    ensures e.kind == VRELOCABLE ==> e.info == |fs.code| - 1 && !fs.code[e.info].JMP?
    ensures forall j :: j in outer ==> j < |fs.code|
  {}

  // 'fs->pc--' drops no jump.
  lemma NotTested(fs: FS, e: Exp, b: nat, outer: set<nat>, base: nat, cond: bool)
    requires Tidy(fs, e, b, outer, base) && e.kind == VRELOCABLE && e.info == |fs.code| - 1 && fs.code[e.info].NOT?
    ensures var (fs', pc) := JumpOnCond(fs, e, cond); BranchStep(fs, fs', e, pc, cond, b, outer, base)
  {
    var fs1, l := Shorter(fs), Lists(e.t, e.f);
    var test := TEST(fs.code[e.info].b, !cond);
    ShorterShape(fs, e, b, outer);
    ShorterLinks(fs, e, b, outer);
    hide Shaped, LinksOK, Emit;
    EmitIsCode(fs1, test, test);
    assert JumpOnCond(fs, e, cond) == CondJump(fs1, test);
    TestLinks(fs1, l, b, outer, test, cond);
    EmitFields(fs1, [test, JMP(NO_JUMP)]);
    SameTrans(fs.code, fs1.code, Emit(fs1, [test, JMP(NO_JUMP)]).code, outer);
    assert Joined(l, [|fs1.code| + 1], cond) == Joined(e, [|fs1.code| + 1], cond);
  }

  lemma ShorterLinks(fs: FS, e: Exp, b: nat, outer: set<nat>)
    requires Shaped(fs, e, b, outer) && LinksOK(fs, e) && e.kind == VRELOCABLE
    ensures LinksOK(Shorter(fs), Lists(e.t, e.f)) && SameJumps(fs.code, Shorter(fs).code, outer)
  {
    var code' := Shorter(fs).code;
    OwnParts(e);
    assert forall j :: j in outer + Own(e) ==> j < |fs.code| && fs.code[j].JMP?;
    assert SameJumps(fs.code, code', outer + Own(e));
    KeepLinks(fs, e, Shorter(fs), Lists(e.t, e.f), outer + Own(e));
  }

  lemma BranchTidy(fs: FS, e: Exp, b: nat, outer: set<nat>, base: nat, flag: bool)
    requires Tidy(fs, e, b, outer, base) && e.kind != VLOCAL && Branch(fs, e, flag).0.ok
    ensures var (fs1, pc) := Branch(fs, e, flag); BranchStep(fs, fs1, e, pc, !flag, b, outer, base)
  {
    hide JumpOnCond, InvertJump;
    if e.kind == VJMP {
      JumpBranchTidy(fs, e, b, outer, base, flag);
    } else if AlwaysIs(e, flag) {
      ConstantBranchTidy(fs, e, b, outer, base, flag);
    } else {
      JumpOnCondTidy(fs, e, b, outer, base, !flag);
    }
  }

  lemma ConstantBranchTidy(fs: FS, e: Exp, b: nat, outer: set<nat>, base: nat, flag: bool)
    requires Tidy(fs, e, b, outer, base) && AlwaysIs(e, flag)
    ensures BranchStep(fs, fs, e, [], !flag, b, outer, base)
  {
    assert e.t + [] == e.t && e.f + [] == e.f;
    assert Own(Joined(e, [], !flag)) == Own(e);
  }

  lemma JumpBranchTidy(fs: FS, e: Exp, b: nat, outer: set<nat>, base: nat, flag: bool)
    requires Tidy(fs, e, b, outer, base) && e.kind == VJMP
    ensures var fs1 := if flag then InvertJump(fs, e) else fs; BranchStep(fs, fs1, e, [e.info], !flag, b, outer, base)
    ensures flag ==> Tidy(InvertJump(fs, e), e, b, outer, base) && SameJumps(fs.code, InvertJump(fs, e).code, outer)
  {
    var fs1 := if flag then InvertJump(fs, e) else fs;
    if flag {
      InvertShape(fs, e, b, outer);
      var p := |fs.code| - 2;
      assert fs.code[p].CMP?;
      ReplaceLinks(fs, e, b, outer, p, Inverted(fs.code[p]), e);
      SameFewer(fs.code, fs1.code, outer + Elems(fs.jpc) + Own(e), outer);
    }
    JumpInList(fs1, e, b, outer, !flag);
  }

  // goiftrue and goiffalse
  lemma GoIfTidy(fs: FS, e0: Exp, b: nat, outer: set<nat>, base: nat, flag: bool)
    requires Tidy(fs, e0, b, outer, base) && GoIf(fs, e0, flag).0.ok
    ensures var (fs', e') := GoIf(fs, e0, flag); CondStep(fs, fs', e', b, outer, base) && (if flag then e'.t == [] else e'.f == [])
  {
    hide Branch, PatchToHere, Concat, GoIf, Shaped, LinksOK;
    var e := DischargeVars(e0);
    TidyVars(fs, e0, b, outer, base);
    GoIfIs(fs, e0, flag);
    var (fs1, pc) := Branch(fs, e, flag);
    BranchTidy(fs, e, b, outer, base, flag);
    HereTidy(fs, fs1, e, pc, b, outer, base, flag);
  }

  lemma HereTidy(fs: FS, fs1: FS, e: Exp, pc: seq<nat>, b: nat, outer: set<nat>, base: nat, flag: bool)
    requires BranchStep(fs, fs1, e, pc, !flag, b, outer, base)
    ensures var e' := if flag then e.(f := e.f + pc, t := []) else e.(t := e.t + pc, f := []);
            CondStep(fs, PatchToHere(Concat(fs1, if flag then e.f else e.t, pc), Here(e, flag)), e', b, outer, base)
  {
    hide Shaped, LinksOK, Linked, SameJumps, Own, Concat, Distinct, Elems;
    var j := Joined(e, pc, !flag);
    var l1, here := if flag then e.f else e.t, Here(e, flag);
    var fs2 := Concat(fs1, l1, pc);
    JoinedParts(fs1, e, pc, b, outer, flag);
    JoinTidy(fs1, e, pc, b, outer, flag);
    var fs3 := fs2.(jpc := fs2.jpc + here, lasttarget := |fs2.code|);
    HereShape(fs2, j, b, outer, flag);
    var fs4 := Concat(fs3, fs2.jpc, here);
    HereIs(fs2, here);
    SameSize(fs1, l1, pc);
    ConcatLinks(fs3, fs2.jpc, here, outer + Elems(l1 + pc));
    LinkedStays(fs2.code, fs4.code, l1 + pc, outer + Elems(l1 + pc));
    BothWait(fs2.jpc, here);
    ConcatShape(fs3, There(j, flag), b, outer, fs2.jpc, here);
    SameFewer(fs2.code, fs4.code, outer + Elems(l1 + pc), outer);
    SameTrans(fs1.code, fs2.code, fs4.code, outer);
    SameTrans(fs.code, fs1.code, fs4.code, outer);
    HereLinks(fs4, e, pc, flag, l1 + pc);
  }

  lemma HereIs(fs: FS, here: seq<nat>)
    ensures var fs4 := Concat(fs.(jpc := fs.jpc + here, lasttarget := |fs.code|), fs.jpc, here);
            PatchToHere(fs, here) == fs4 && fs4.jpc == fs.jpc + here
  {}

  lemma SameSize(fs: FS, l1: seq<nat>, l2: seq<nat>)
    ensures |Concat(fs, l1, l2).code| == |fs.code| && Concat(fs, l1, l2).jpc == fs.jpc
  {}

  lemma BothWait(a: seq<nat>, b: seq<nat>)
    ensures Elems(a) <= Elems(a + b)
  {
    forall x | x in Elems(a) ensures x in a + b { assert x in a; }
  }

  lemma HereLinks(fs: FS, e: Exp, pc: seq<nat>, flag: bool, l: seq<nat>)
    requires l == (if flag then e.f else e.t) + pc && Linked(fs.code, l) && Linked(fs.code, fs.jpc)
    ensures LinksOK(fs, if flag then Lists([], l) else Lists(l, []))
  {}

  lemma JoinedParts(fs: FS, e: Exp, pc: seq<nat>, b: nat, outer: set<nat>, flag: bool)
    requires Shaped(fs, Joined(e, pc, !flag), b, outer)
    ensures var l1, here := if flag then e.f else e.t, Here(e, flag);
            Distinct(l1) && Elems(l1) !! Elems(pc) && Distinct(here) && Elems(here) !! Elems(l1 + pc) &&
            Elems(l1 + pc) == Elems(l1) + Elems(pc) &&
            outer !! Elems(l1 + pc) && outer !! Elems(here) && Elems(fs.jpc) !! Elems(l1 + pc) &&
            Elems(fs.jpc) !! Elems(here) &&
            Distinct(fs.jpc) && outer !! Elems(fs.jpc) && (forall i :: i in outer || i in Elems(fs.jpc) || i in Elems(here) || i in Elems(l1 + pc) ==> i < |fs.code|)
  {
    var l1, here := if flag then e.f else e.t, Here(e, flag);
    var l := l1 + pc;
    assert Elems(l) == Elems(l1) + Elems(pc);
    assert Elems(l) <= Own(Joined(e, pc, !flag)) && Elems(here) <= Own(Joined(e, pc, !flag));
    forall i, j | 0 <= i < j < |l1| ensures l1[i] != l1[j] { assert l[i] == l1[i] && l[j] == l1[j]; }
    forall i, k | 0 <= i < |l1| && 0 <= k < |pc| ensures l1[i] != pc[k] { assert l[i] == l1[i] && l[|l1| + k] == pc[k]; }
  }

  // The branch's jump is linked into its list.
  lemma JoinTidy(fs: FS, e: Exp, pc: seq<nat>, b: nat, outer: set<nat>, flag: bool)
    requires Shaped(fs, Joined(e, pc, !flag), b, outer)
    requires Linked(fs.code, fs.jpc) && Linked(fs.code, e.t) && Linked(fs.code, e.f) && Linked(fs.code, pc)
    ensures var l1, here := if flag then e.f else e.t, Here(e, flag); var fs2 := Concat(fs, l1, pc);
            Shaped(fs2, Joined(e, pc, !flag), b, outer) && Linked(fs2.code, l1 + pc) && Linked(fs2.code, here) &&
            Linked(fs2.code, fs2.jpc) &&
            fs2.jpc == fs.jpc && SameJumps(fs.code, fs2.code, outer)
  {
    var l1, here := if flag then e.f else e.t, Here(e, flag);
    var fs2 := Concat(fs, l1, pc);
    var js := outer + Elems(fs.jpc) + Elems(here);
    JoinedParts(fs, e, pc, b, outer, flag);
    ConcatLinks(fs, l1, pc, js);
    LinkedStays(fs.code, fs2.code, here, js);
    LinkedStays(fs.code, fs2.code, fs.jpc, js);
    assert Elems(l1) <= Own(Joined(e, pc, !flag));
    ConcatShape(fs, Joined(e, pc, !flag), b, outer, l1, pc);
  }

  lemma ConcatShape(fs: FS, e: Exp, b: nat, outer: set<nat>, l1: seq<nat>, l2: seq<nat>)
    requires Shaped(fs, e, b, outer) && Elems(l1) <= outer + Elems(fs.jpc) + Own(e)
    ensures Shaped(Concat(fs, l1, l2), e, b, outer)
    ensures var fs' := Concat(fs, l1, l2); fs' == fs.(code := fs'.code, ok := fs'.ok) && |fs'.code| == |fs.code|
  {
    if l1 != [] && l2 != [] {
      assert l1[|l1| - 1] in Elems(l1);
      LinkShape(fs, e, b, outer, l1[|l1| - 1], l2[0]);
    }
  }
}
