// lcode.c in place, continued: registers, conditions and operators.
module LuaFuncOps {
  import opened LuaMachine
  import G = LuaCodegen
  import opened LuaCodegenTypes = LuaCodegen
  import opened LuaCodeRuns
  import opened LuaCodeMeaning
  import opened LuaCodeRegs
  import opened LuaCodeConds
  import opened LuaCodeBranches
  import opened LuaJumpLists
  import opened LuaJumpTidy
  import opened LuaJumpCompile
  import opened LuaFuncState
  import opened LuaFuncExprs

  // ----- registers -----

  method Exp2NextReg(fs: FuncState, e: ExpDesc, ghost b: nat, ghost outer: set<nat>, ghost base: nat)
    requires Holds(fs, e, b, outer, base)
    modifies fs, e
    ensures Done(fs, e, old(fs.Model()), G.Exp2NextReg(old(fs.Model()), old(e.Model())), b, outer, base)
    ensures fs.ok ==> e.ts == [] && e.fs == []
  {
    hide Tidy, Step, Shaped, LinksOK, RegsOK, Linked, Distinct, G.Exp2Reg, G.FreeExp, G.ReserveRegs, G.Discharge2Reg;
    ghost var m, x := fs.Model(), e.Model();
    TidyVars(m, x, b, outer, base);
    if G.Exp2NextReg(m, x).0.ok { NextRegTidy(m, x, b, outer, base); }
    e.DischargeVars();
    ReserveTidy(m, e.Model(), b, outer, base);
    fs.FreeExp(e);
    fs.ReserveRegs(1);
    if !fs.ok { return; }
    LuaFuncExprs.Exp2Reg(fs, e, fs.freereg - 1, b, outer);
  }

  // The register reserved for a descriptor is free.
  lemma ReserveTidy(m: FS, x: Exp, b: nat, outer: set<nat>, base: nat)
    requires Tidy(m, x, b, outer, base) && m.ok && x.kind != VLOCAL
    ensures var m1 := G.ReserveRegs(G.FreeExp(m, x), 1);
            m1 == m.(freereg := m1.freereg, maxstack := m1.maxstack, ok := m1.ok) && m1.freereg > 0 &&
            Shaped(m1, x, b, outer) && LinksOK(m1, x)
  {}

  method Exp2AnyReg(fs: FuncState, e: ExpDesc, ghost b: nat, ghost outer: set<nat>, ghost base: nat)
    requires Holds(fs, e, b, outer, base)
    modifies fs, e
    ensures Done(fs, e, old(fs.Model()), G.Exp2AnyReg(old(fs.Model()), old(e.Model())), b, outer, base)
    ensures fs.ok ==> e.ts == [] && e.fs == [] && e.kind == VNONRELOC
  {
    hide Tidy, Step, Shaped, LinksOK, RegsOK, Linked, Distinct, G.Exp2Reg, G.Exp2NextReg, G.Discharge2Reg;
    ghost var m, x := fs.Model(), e.Model();
    TidyVars(m, x, b, outer, base);
    if G.Exp2AnyReg(m, x).0.ok { AnyRegTidy(m, x, b, outer, base); }
    SameNextReg(m, x);
    e.DischargeVars();
    TidyParts(m, e.Model(), b, outer, base);
    if e.kind == VNONRELOC {
      if !e.HasJumps() { return; }
      if e.info >= fs.nactvar {
        LuaFuncExprs.Exp2Reg(fs, e, e.info, b, outer);
        return;
      }
    }
    Exp2NextReg(fs, e, b, outer, base);
  }

  lemma TidyParts(m: FS, x: Exp, b: nat, outer: set<nat>, base: nat)
    requires Tidy(m, x, b, outer, base)
    ensures Shaped(m, x, b, outer) && LinksOK(m, x)
  {}

  method Exp2Val(fs: FuncState, e: ExpDesc, ghost b: nat, ghost outer: set<nat>, ghost base: nat)
    requires Holds(fs, e, b, outer, base)
    modifies fs, e
    ensures Done(fs, e, old(fs.Model()), G.Exp2Val(old(fs.Model()), old(e.Model())), b, outer, base)
  {
    hide Tidy, Step, G.Exp2AnyReg;
    ghost var m, x := fs.Model(), e.Model();
    if G.Exp2Val(m, x).0.ok { ValTidy(m, x, b, outer, base); }
    if e.HasJumps() { Exp2AnyReg(fs, e, b, outer, base); } else { e.DischargeVars(); }
  }

  method Exp2RK(fs: FuncState, e: ExpDesc, ghost b: nat, ghost outer: set<nat>, ghost base: nat) returns (rk: nat)
    requires Holds(fs, e, b, outer, base)
    modifies fs, e
    ensures var (m, x, o) := G.Exp2RK(old(fs.Model()), old(e.Model()));
            Done(fs, e, old(fs.Model()), (m, x), b, outer, base) && (fs.ok ==> rk == o && IsOperand(x, o))
  {
    hide Tidy, Step, G.Exp2AnyReg, G.Exp2Val, G.AddK;
    ghost var m, x := fs.Model(), e.Model();
    if G.Exp2RK(m, x).0.ok { RKTidy(m, x, b, outer, base); }
    Exp2Val(fs, e, b, outer, base);
    if !fs.ok { return 0; }
    ghost var m1, x1 := fs.Model(), e.Model();
    StepTidy(m, m1, x1, b, outer, base);
    match e.kind {
      case VTRUE => if |fs.k| <= MAXINDEXRK { rk := ConstantRK(fs, e, Bool(true)); return; }
      case VFALSE => if |fs.k| <= MAXINDEXRK { rk := ConstantRK(fs, e, Bool(false)); return; }
      case VNIL => if |fs.k| <= MAXINDEXRK { rk := ConstantRK(fs, e, Nil); return; }
      case VKNUM =>
        ConstantTidy(m1, x1, b, outer, base);
        StepTidy(m1, G.AddK(m1, Num(x1.nval)).0, x1.(kind := VK, info := G.AddK(m1, Num(x1.nval)).1), b, outer, base);
        rk := ConstantRK(fs, e, Num(e.nval));
        if e.info <= MAXINDEXRK { return; }
      case VK => if e.info <= MAXINDEXRK { return e.info + BITRK; }
      case _ =>
    }
    Exp2AnyReg(fs, e, b, outer, base);
    rk := e.info;
  }

  method ConstantRK(fs: FuncState, e: ExpDesc, v: Value) returns (rk: nat)
    requires fs.Valid() && e.Heads()
    modifies fs`k, fs`h, e
    ensures var (m, i) := G.AddK(old(fs.Model()), v);
            fs.Model() == m && e.Model() == old(e.Model()).(kind := VK, info := i) && rk == i + BITRK && fs.Valid() &&
            e.Heads()
  {
    var i := fs.AddK(v);
    e.Become(VK, i);
    rk := i + BITRK;
  }

  lemma StepTidy(m: FS, m1: FS, x1: Exp, b: nat, outer: set<nat>, base: nat)
    requires Step(m, m1, x1, b, outer, base)
    ensures Tidy(m1, x1, b, outer, base) && SameJumps(m.code, m1.code, outer)
  {}

  method DischargeToAnyReg(fs: FuncState, e: ExpDesc, ghost b: nat, ghost outer: set<nat>, ghost base: nat)
    requires Holds(fs, e, b, outer, base) && e.kind != VJMP && e.kind != VLOCAL
    modifies fs, e
    ensures Done(fs, e, old(fs.Model()), G.Discharge2AnyReg(old(fs.Model()), old(e.Model())), b, outer, base)
    ensures fs.ok ==> e.kind == VNONRELOC && e.ts == old(e.ts) && e.fs == old(e.fs) && e.t == old(e.t) && e.f == old(e.f)
  {
    hide Tidy, Step, Shaped, LinksOK, Linked, G.ReserveRegs, G.Discharge2Reg;
    ghost var m, x := fs.Model(), e.Model();
    if G.Discharge2AnyReg(m, x).0.ok { KeepListsTidy(m, x, b, outer, base); }
    AfterReserve(m, x, b, outer, base);
    if e.kind != VNONRELOC {
      fs.ReserveRegs(1);
      if !fs.ok { return; }
      DischargeToReg(fs, e, fs.freereg - 1, b, outer);
    }
  }

  lemma AfterReserve(m: FS, x: Exp, b: nat, outer: set<nat>, base: nat)
    requires Tidy(m, x, b, outer, base)
    ensures var m1 := G.ReserveRegs(m, 1);
            m1.freereg > 0 && m1 == m.(freereg := m1.freereg, maxstack := m1.maxstack, ok := m1.ok) &&
            (m1.ok ==> Shaped(m1, x, b, outer)) && LinksOK(m1, x)
  {}

  // ----- conditions -----

  method InvertJump(fs: FuncState, e: ExpDesc, ghost b: nat, ghost outer: set<nat>, ghost base: nat)
    requires Holds(fs, e, b, outer, base) && e.kind == VJMP
    modifies fs`code
    ensures fs.Model() == G.InvertJump(old(fs.Model()), e.Model()) && Holds(fs, e, b, outer, base)
    ensures SameJumps(old(fs.code), fs.code, outer)
  {
    ghost var m, x := fs.Model(), e.Model();
    InvertShape(m, x, b, outer);
    JumpBranchTidy(m, x, b, outer, base, true);
    var c := fs.GetJumpControl(e.info);
    fs.code := fs.code[c := G.Inverted(fs.code[c])];
    hide Shaped;
  }

  // 'fs->pc--'
  method RemoveLast(fs: FuncState, e: ExpDesc, ghost b: nat, ghost outer: set<nat>, ghost base: nat)
    requires Holds(fs, e, b, outer, base) && e.kind == VRELOCABLE
    modifies fs`code
    ensures fs.Model() == old(fs.Model()).(code := old(fs.code)[..|old(fs.code)| - 1]) && fs.Valid()
  {
    assert fs.waiting == [];
    fs.code := fs.code[..|fs.code| - 1];
  }

  method JumpOnCond(fs: FuncState, e: ExpDesc, cond: bool, ghost b: nat, ghost outer: set<nat>, ghost base: nat)
    returns (j: nat)
    requires Holds(fs, e, b, outer, base) && e.kind != VJMP && e.kind != VLOCAL
    modifies fs, e
    ensures fs.ok == G.JumpOnCond(old(fs.Model()), old(e.Model()), cond).0.ok
    ensures fs.ok ==> (fs.Model(), [j]) == G.JumpOnCond(old(fs.Model()), old(e.Model()), cond) && fs.Valid() &&
                      BranchStep(old(fs.Model()), fs.Model(), old(e.Model()), [j], cond, b, outer, base)
    ensures fs.ok ==> e.Heads() && e.ts == old(e.ts) && e.fs == old(e.fs)
  {
    hide Tidy, Step, Shaped, LinksOK, Linked, Distinct, BranchStep, G.CondJump, G.Discharge2AnyReg, G.FreeExp;
    ghost var m, x := fs.Model(), e.Model();
    if G.JumpOnCond(m, x, cond).0.ok { JumpOnCondTidy(m, x, b, outer, base, cond); }
    TidyParts(m, x, b, outer, base);
    RelocLow(m, x, b, outer);
    if e.kind == VRELOCABLE {
      var ie := fs.code[e.info];
      if ie.NOT? {
        RemoveLast(fs, e, b, outer, base);
        j := fs.CondJump(TEST(ie.b, !cond));
        return;
      }
    }
    DischargeToAnyReg(fs, e, b, outer, base);
    if !fs.ok { CondJumpFails(m, x, cond); return 0; }
    fs.FreeExp(e);
    j := fs.CondJump(TESTSET(NO_REG, e.info, cond));
  }

  // An error is not forgotten.
  lemma CondJumpFails(m: FS, x: Exp, cond: bool)
    requires !G.Discharge2AnyReg(m, x).0.ok && !(x.kind == VRELOCABLE && x.info < |m.code| && m.code[x.info].NOT?)
    ensures !G.JumpOnCond(m, x, cond).0.ok
  {}

  // What is left to do once the branch is there: its jump joins a list, and the exits that agree
  // with the condition are sent here.
  lemma BranchLists(m: FS, m1: FS, x: Exp, pc: seq<nat>, flag: bool, b: nat, outer: set<nat>, base: nat)
    requires BranchStep(m, m1, x, pc, !flag, b, outer, base)
    ensures var l1, here := if flag then x.f else x.t, Here(x, flag); var m2 := G.Concat(m1, l1, pc);
            Linked(m1.code, l1) && Distinct(l1) && Linked(m2.code, here) && Distinct(here) &&
            Elems(here) !! Elems(m1.jpc) &&
            Linked(m2.code, m2.jpc) && Distinct(m2.jpc) && m2.jpc == m1.jpc
  {
    JoinedParts(m1, x, pc, b, outer, flag);
    JoinTidy(m1, x, pc, b, outer, flag);
  }

  // Only the lists of the descriptor count after a condition.
  ghost predicate Condition(fs: FuncState, e: ExpDesc, m: FS, res: (FS, Exp), b: nat, outer: set<nat>, base: nat)
    reads fs, e
  {
    fs.ok == res.0.ok &&
    (fs.ok ==> fs.Model() == res.0 && e.ts == res.1.t && e.fs == res.1.f && fs.Valid() && e.Heads() &&
               CondStep(m, fs.Model(), res.1, b, outer, base))
  }

  lemma GoIfSteps(m: FS, x0: Exp, flag: bool)
    ensures var x := G.DischargeVars(x0); var (m1, pc) := Branch(m, x, flag); var l1 := if flag then x.f else x.t;
            var m2 := G.PatchToHere(G.Concat(m1, l1, pc), Here(x, flag));
            (if flag then G.GoIfTrue(m, x0) else G.GoIfFalse(m, x0)) ==
            (m2, if flag then x.(f := x.f + pc, t := []) else x.(t := x.t + pc, f := [])) && (m2.ok ==> m1.ok)
  {
    GoIfIs(m, x0, flag);
  }

  ghost predicate Branched(fs: FuncState, e: ExpDesc, m: FS, x: Exp, flag: bool, l: seq<nat>, b: nat, outer: set<nat>,
                           base: nat)
    reads fs, e
  {
    fs.ok == Branch(m, x, flag).0.ok &&
    (fs.ok ==> (fs.Model(), l) == Branch(m, x, flag) && fs.Valid() && e.Heads() && e.ts == x.t && e.fs == x.f &&
               BranchStep(m, fs.Model(), x, l, !flag, b, outer, base))
  }

  lemma GoIfIsGoIf(m: FS, x: Exp)
    ensures GoIf(m, x, true) == G.GoIfTrue(m, x) && GoIf(m, x, false) == G.GoIfFalse(m, x)
  {}

  // luaK_goiftrue: the jump to take with the other value
  method BranchIfTrue(fs: FuncState, e: ExpDesc, ghost b: nat, ghost outer: set<nat>, ghost base: nat)
    returns (pc: int, ghost l: seq<nat>)
    requires Holds(fs, e, b, outer, base) && e.kind != VLOCAL
    modifies fs, e
    ensures Branched(fs, e, old(fs.Model()), old(e.Model()), true, l, b, outer, base) && pc == Head(l)
  {
    hide Tidy, Step, Shaped, LinksOK, Linked, Distinct, RegsOK, BranchStep, G.JumpOnCond, G.InvertJump;
    ghost var m, x := fs.Model(), e.Model();
    pc, l := NO_JUMP, [];
    if e.kind == VJMP {
      JumpBranchTidy(m, x, b, outer, base, true);
      InvertJump(fs, e, b, outer, base);
      pc, l := e.info, [e.info];
    } else if e.kind == VK || e.kind == VKNUM || e.kind == VTRUE {
      ConstantBranchTidy(m, x, b, outer, base, true);
    } else {
      var j := JumpOnCond(fs, e, false, b, outer, base);
      pc, l := j, [j];
    }
  }

  method GoIfTrue(fs: FuncState, e: ExpDesc, ghost b: nat, ghost outer: set<nat>, ghost base: nat)
    requires Holds(fs, e, b, outer, base)
    modifies fs, e
    ensures Condition(fs, e, old(fs.Model()), G.GoIfTrue(old(fs.Model()), old(e.Model())), b, outer, base)
    ensures fs.ok ==> e.t == NO_JUMP
  {
    hide Tidy, Step, Shaped, LinksOK, Linked, Distinct, Elems, RegsOK, BranchStep, CondStep, Branch, G.Concat, G.PatchToHere, G.GoIfTrue, G.GoIfFalse, GoIf, KeysOK;
    ghost var m, x0 := fs.Model(), e.Model();
    TidyVars(m, x0, b, outer, base);
    GoIfSteps(m, x0, true);
    GoIfIsGoIf(m, x0);
    if GoIf(m, x0, true).0.ok { GoIfTidy(m, x0, b, outer, base, true); }
    e.DischargeVars();
    ghost var x := e.Model();
    var pc, l := BranchIfTrue(fs, e, b, outer, base);
    if !fs.ok { return; }
    BranchLists(m, fs.Model(), x, l, true, b, outer, base);
    pc := fs.Concat(e.f, pc, e.fs, l);
    e.SetFalse(pc, e.fs + l);
    fs.PatchToHere(e.t, e.ts);
    e.SetTrue(NO_JUMP, []);
  }

  // luaK_goiffalse: the jump to take with the other value
  method BranchIfFalse(fs: FuncState, e: ExpDesc, ghost b: nat, ghost outer: set<nat>, ghost base: nat)
    returns (pc: int, ghost l: seq<nat>)
    requires Holds(fs, e, b, outer, base) && e.kind != VLOCAL
    modifies fs, e
    ensures Branched(fs, e, old(fs.Model()), old(e.Model()), false, l, b, outer, base) && pc == Head(l)
  {
    hide Tidy, Step, Shaped, LinksOK, Linked, Distinct, RegsOK, BranchStep, G.JumpOnCond, G.InvertJump;
    ghost var m, x := fs.Model(), e.Model();
    pc, l := NO_JUMP, [];
    if e.kind == VJMP {
      JumpBranchTidy(m, x, b, outer, base, false);
      pc, l := e.info, [e.info];
    } else if e.kind == VNIL || e.kind == VFALSE {
      ConstantBranchTidy(m, x, b, outer, base, false);
    } else {
      var j := JumpOnCond(fs, e, true, b, outer, base);
      pc, l := j, [j];
    }
  }

  method GoIfFalse(fs: FuncState, e: ExpDesc, ghost b: nat, ghost outer: set<nat>, ghost base: nat)
    requires Holds(fs, e, b, outer, base)
    modifies fs, e
    ensures Condition(fs, e, old(fs.Model()), G.GoIfFalse(old(fs.Model()), old(e.Model())), b, outer, base)
    ensures fs.ok ==> e.f == NO_JUMP
  {
    hide Tidy, Step, Shaped, LinksOK, Linked, Distinct, Elems, RegsOK, BranchStep, CondStep, Branch, G.Concat, G.PatchToHere, G.GoIfTrue, G.GoIfFalse, GoIf, KeysOK;
    ghost var m, x0 := fs.Model(), e.Model();
    TidyVars(m, x0, b, outer, base);
    GoIfSteps(m, x0, false);
    GoIfIsGoIf(m, x0);
    if GoIf(m, x0, false).0.ok { GoIfTidy(m, x0, b, outer, base, false); }
    e.DischargeVars();
    ghost var x := e.Model();
    var pc, l := BranchIfFalse(fs, e, b, outer, base);
    if !fs.ok { return; }
    BranchLists(m, fs.Model(), x, l, false, b, outer, base);
    pc := fs.Concat(e.t, pc, e.ts, l);
    e.SetTrue(pc, e.ts + l);
    fs.PatchToHere(e.f, e.fs);
    e.SetFalse(NO_JUMP, []);
  }

  // ----- not -----

  // codenot, the value
  method NotValue(fs: FuncState, e: ExpDesc, ghost b: nat, ghost outer: set<nat>, ghost base: nat)
    requires Holds(fs, e, b, outer, base) && e.kind != VLOCAL
    modifies fs, e
    ensures Done(fs, e, old(fs.Model()), G.NotValue(old(fs.Model()), old(e.Model())), b, outer, base)
  {
    hide Tidy, Step, Shaped, LinksOK, Linked, Distinct, Elems, RegsOK, G.InvertJump, G.Discharge2AnyReg, G.FreeExp, G.Code, KeysOK;
    ghost var m, x := fs.Model(), e.Model();
    if G.NotValue(m, x).0.ok { NotValueTidy(m, x, b, outer, base); }
    if e.kind == VNIL || e.kind == VFALSE {
      e.Become(VTRUE, e.info);
    } else if e.kind == VK || e.kind == VKNUM || e.kind == VTRUE {
      e.Become(VFALSE, e.info);
    } else if e.kind == VJMP {
      InvertJump(fs, e, b, outer, base);
    } else {
      DischargeToAnyReg(fs, e, b, outer, base);
      if !fs.ok { return; }
      EmitNot(fs, e);
    }
  }

  // The instruction for 'not', its register left open.
  method EmitNot(fs: FuncState, e: ExpDesc)
    requires fs.Valid() && e.Heads()
    modifies fs, e
    ensures var m := G.FreeExp(old(fs.Model()), old(e.Model()));
            fs.Model() == G.Code(m, NOT(0, old(e.info))) &&
            e.Model() == old(e.Model()).(kind := VRELOCABLE, info := |m.code|)
    ensures fs.Valid() && e.Heads()
  {
    hide G.FreeExp, Distinct, Linked;
    fs.FreeExp(e);
    var pc := |fs.code|;
    fs.Code(NOT(0, e.info));
    e.Become(VRELOCABLE, pc);
  }

  method CodeNot(fs: FuncState, e: ExpDesc, ghost b: nat, ghost outer: set<nat>, ghost base: nat)
    requires Holds(fs, e, b, outer, base)
    modifies fs, e
    ensures Done(fs, e, old(fs.Model()), G.CodeNot(old(fs.Model()), old(e.Model())), b, outer, base)
  {
    hide Tidy, Step, Shaped, LinksOK, Linked, Distinct, RegsOK, G.NotValue, G.RemoveValues;
    ghost var m, x0 := fs.Model(), e.Model();
    TidyVars(m, x0, b, outer, base);
    if G.CodeNot(m, x0).0.ok { NotTidy(m, x0, b, outer, base); }
    e.DischargeVars();
    NotValue(fs, e, b, outer, base);
    if !fs.ok { return; }
    ghost var m1, x1 := fs.Model(), e.Model();
    StepTidy(m, m1, x1, b, outer, base);
    NotLinks(m1, x1, b, outer, base);
    // interchange true and false lists
    var temp := e.f;
    ghost var temps := e.fs;
    e.SetFalse(e.t, e.ts);
    e.SetTrue(temp, temps);
    fs.RemoveValues(e.f, e.fs);
    fs.RemoveValues(e.t, e.ts);
  }

  // Dropping the values of one list keeps both linked.
  lemma NotLinks(m: FS, x: Exp, b: nat, outer: set<nat>, base: nat)
    requires Tidy(m, x, b, outer, base)
    ensures Linked(m.code, x.t) && Linked(m.code, x.f) && Distinct(x.t) && Distinct(x.f)
    ensures var code1 := G.RemoveValues(m.code, x.t);
            Linked(code1, x.f) && Linked(G.RemoveValues(code1, x.f), m.jpc) && Distinct(m.jpc)
  {
    ExchangeTidy(m, x, b, outer);
    LinkedJumps(m.code, x.t);
    LinkedJumps(m.code, x.f);
    RemoveKeeps(m.code, x.t, x.f);
  }

  lemma {:induction false} RemoveKeeps(code: seq<Instr>, list: seq<nat>, l: seq<nat>)
    requires Linked(code, l)
    ensures Linked(G.RemoveValues(code, list), l)
    decreases |list|
  {
    if list != [] {
      var code1 := G.PatchTestReg(code, list[0], NO_REG);
      assert Linked(code1, l);
      RemoveKeeps(code1, list[1..], l);
    }
  }
}
