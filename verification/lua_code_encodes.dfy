// What is generated can be encoded: every operand fits into its field of the 32-bit instructions
// (lopcodes.h: 8 bits for A, 9 for B and C, 18 for Bx and sBx, 26 for Ax).
module LuaCodeEncodes {
  import opened LuaMachine
  import opened LuaCodegen
  import opened LuaCodeMeaning
  import opened LuaCodeOperands
  import opened LuaCodeRegs
  import opened LuaCodeRuns
  import opened LuaCodeCompile
  import opened LuaJumpLists
  import opened LuaJumpTidy
  import opened LuaJumpCompile
  import A = LuaCodeArith
  import F = LuaCodeFits

  predicate Encodes(i: Instr) {
    match i
    case MOVE(a, b) => a < 256 && b < 512
    case LOADK(a, bx) => a < 256 && bx < 262144
    case LOADKX(a) => a < 256
    case EXTRAARG(ax) => ax < 0x400_0000
    case LOADBOOL(a, _, _) => a < 256
    case LOADNIL(a, n) => a + n < 256
    case ARITH(_, a, rb, rc) => a < 256 && rb < 512 && rc < 512
    case UNARY(_, a, b) => a < 256 && b < 512
    case NOT(a, b) => a < 256 && b < 256
    case JMP(sbx) => -131071 <= sbx <= 131072
    case CMP(_, _, rb, rc) => rb < 512 && rc < 512
    case TEST(a, _) => a < 256
    case TESTSET(a, b, _) => a < 256 && b < 256  // a TEST takes it over as its A
  }

  // All instructions so far, as long as there has been no error
  ghost predicate Enc(fs: FS) {
    fs.ok ==> forall i :: 0 <= i < |fs.code| ==> Encodes(fs.code[i])
  }

  // Registers and constants of a descriptor
  ghost predicate SmallExp(fs: FS, e: Exp) {
    (e.kind == VNONRELOC || e.kind == VLOCAL ==> e.info < 250) && (e.kind == VK ==> e.info < |fs.k|)
  }

  ghost predicate FewConstants(fs: FS) { |fs.k| <= 0x400_0000 }

  lemma TidySmall(fs: FS, e: Exp, b: nat, outer: set<nat>, base: nat)
    requires Tidy(fs, e, b, outer, base) && fs.ok
    ensures SmallExp(fs, e) && base < 250 && fs.freereg < 250
  {}

  // ----- jumps -----

  lemma FixJumpEnc(fs: FS, pc: nat, dest: int)
    requires Enc(fs)
    ensures Enc(FixJump(fs, pc, dest))
  {}

  lemma ConcatEnc(fs: FS, a: seq<nat>, b: seq<nat>)
    requires Enc(fs)
    ensures Enc(Concat(fs, a, b))
  {
    if a != [] && b != [] { FixJumpEnc(fs, a[|a| - 1], b[0]); }
  }

  lemma TestRegEnc(fs: FS, node: nat, reg: nat)
    requires Enc(fs) && reg < 256
    ensures Enc(fs.(code := PatchTestReg(fs.code, node, reg)))
  {
    if fs.ok && ProducesValue(fs.code, node) { assert Encodes(fs.code[Control(fs.code, node)]); }
  }

  lemma {:induction false} PatchEnc(fs: FS, list: seq<nat>, vt: int, reg: nat, dt: int)
    requires Enc(fs) && reg < 256
    ensures Enc(PatchListAux(fs, list, vt, reg, dt))
    decreases |list|
  {
    hide Enc, PatchTestReg, FixJump;
    if list != [] {
      var fs1 := fs.(code := PatchTestReg(fs.code, list[0], reg));
      var target := if ProducesValue(fs.code, list[0]) then vt else dt;
      TestRegEnc(fs, list[0], reg);
      FixJumpEnc(fs1, list[0], target);
      PatchEnc(FixJump(fs1, list[0], target), list[1..], vt, reg, dt);
    }
  }

  lemma {:induction false} RemoveEnc(fs: FS, list: seq<nat>)
    requires Enc(fs)
    ensures Enc(fs.(code := RemoveValues(fs.code, list)))
    decreases |list|
  {
    if list == [] {
      assert fs.(code := fs.code) == fs;
    } else {
      var fs1 := fs.(code := PatchTestReg(fs.code, list[0], NO_REG));
      TestRegEnc(fs, list[0], NO_REG);
      RemoveEnc(fs1, list[1..]);
    }
  }

  lemma CodeEnc(fs: FS, i: Instr)
    requires Enc(fs) && Encodes(i)
    ensures Enc(Code(fs, i))
  {
    PatchEnc(fs, fs.jpc, |fs.code|, NO_REG, |fs.code|);
  }

  lemma HereEnc(fs: FS, list: seq<nat>)
    requires Enc(fs)
    ensures Enc(PatchToHere(fs, list))
  {
    ConcatEnc(GetLabel(fs), fs.jpc, list);
  }

  lemma JumpEnc(fs: FS)
    requires Enc(fs)
    ensures Enc(Jump(fs).0)
  {
    CodeEnc(fs.(jpc := []), JMP(NO_JUMP));
    ConcatEnc(Code(fs.(jpc := []), JMP(NO_JUMP)), [|fs.code|], fs.jpc);
  }

  lemma CondJumpEnc(fs: FS, i: Instr)
    requires Enc(fs) && Encodes(i)
    ensures Enc(CondJump(fs, i).0)
  {
    CodeEnc(fs, i);
    JumpEnc(Code(fs, i));
  }

  // ----- discharging -----

  lemma NilsEnc(fs: FS, reg: nat)
    requires Enc(fs) && reg < 250
    ensures Enc(LoadNils(fs, reg, 1))
  {
    hide Code;
    CodeEnc(fs, LOADNIL(reg, 0));
    if fs.ok && |fs.code| > 0 { assert Encodes(fs.code[|fs.code| - 1]); }
  }

  lemma CodeKEnc(fs: FS, reg: nat, k: nat)
    requires Enc(fs) && reg < 250 && k < 0x400_0000
    ensures Enc(CodeK(fs, reg, k))
  {
    hide Enc, Code;
    if k <= MAXARG_Bx {
      CodeEnc(fs, LOADK(reg, k));
    } else {
      CodeEnc(fs, LOADKX(reg));
      CodeEnc(Code(fs, LOADKX(reg)), EXTRAARG(k));
    }
  }

  lemma SetAEnc(fs: FS, pc: nat, reg: nat)
    requires Enc(fs) && reg < 250
    ensures Enc(fs.(code := SetA(fs.code, pc, reg)))
  {
    if fs.ok && pc < |fs.code| { assert Encodes(fs.code[pc]); }
  }

  lemma DischargeEnc(fs: FS, e0: Exp, reg: nat)
    requires Enc(fs) && SmallExp(fs, e0) && reg < 250 && FewConstants(Discharge2Reg(fs, e0, reg).0)
    ensures Enc(Discharge2Reg(fs, e0, reg).0)
  {
    hide Enc, Code, CodeK, LoadNils, SetA;
    var e := DischargeVars(e0);
    match e.kind
    case VNIL => NilsEnc(fs, reg);
    case VFALSE => CodeEnc(fs, LOADBOOL(reg, false, false));
    case VTRUE => CodeEnc(fs, LOADBOOL(reg, true, false));
    case VK => SameConstants(fs, reg, e.info); CodeKEnc(fs, reg, e.info);
    case VKNUM =>
      var (fs1, i) := AddK(fs, Num(e.nval));
      AddEnc(fs, Num(e.nval));
      SameConstants(fs1, reg, i);
      CodeKEnc(fs1, reg, i);
    case VRELOCABLE => SetAEnc(fs, e.info, reg);
    case VNONRELOC => CodeEnc(fs, MOVE(reg, e.info));
    case _ =>
  }

  lemma SameConstants(fs: FS, reg: nat, k: nat)
    ensures CodeK(fs, reg, k).k == fs.k
  {}

  lemma AddEnc(fs: FS, v: Value)
    requires Enc(fs)
    ensures Enc(AddK(fs, v).0) && AddK(fs, v).1 < |AddK(fs, v).0.k|
  {}

  lemma ReserveEnc(fs: FS)
    requires Enc(fs) && fs.freereg <= fs.maxstack && (fs.ok ==> fs.maxstack < 250)
    ensures Enc(ReserveRegs(fs, 1)) && (ReserveRegs(fs, 1).ok ==> fs.freereg + 1 < 250)
  {}

  lemma FreeEnc(fs: FS, e: Exp)
    requires Enc(fs)
    ensures Enc(FreeExp(fs, e)) && FreeExp(fs, e).k == fs.k && FreeExp(fs, e).freereg <= fs.freereg && FreeExp(fs, e).maxstack == fs.maxstack
  {}

  ghost predicate StackOK(fs: FS) { fs.freereg <= fs.maxstack && (fs.ok ==> fs.maxstack < 250) }

  lemma ShapedStack(fs: FS, e: Exp, b: nat, outer: set<nat>)
    requires Shaped(fs, e, b, outer)
    ensures StackOK(fs)
  {}

  lemma AnyReg0Enc(fs: FS, e: Exp)
    requires Enc(fs) && SmallExp(fs, e) && StackOK(fs) && Discharge2AnyReg(fs, e).0.ok && FewConstants(Discharge2AnyReg(fs, e).0)
    requires e.kind != VJMP && e.kind != VLOCAL
    ensures var (fs', e') := Discharge2AnyReg(fs, e); Enc(fs') && e'.kind == VNONRELOC && e'.info < 250
  {
    hide Enc, Discharge2Reg;
    if e.kind != VNONRELOC {
      ReserveEnc(fs);
      var fs1 := ReserveRegs(fs, 1);
      DischargeEnc(fs1, e, fs1.freereg - 1);
      DischargedInfo(fs1, e, fs1.freereg - 1);
    }
  }

  lemma DischargedInfo(fs: FS, e: Exp, reg: nat)
    requires e.kind != VJMP && e.kind != VLOCAL
    ensures Discharge2Reg(fs, e, reg).1.kind == VNONRELOC && Discharge2Reg(fs, e, reg).1.info == reg
  {
    hide Code, CodeK, LoadNils;
  }

  lemma CloseEnc(fs: FS, e: Exp, reg: nat)
    requires Enc(fs) && reg < 250
    ensures Enc(CloseJumps(fs, e, reg))
  {
    hide Enc, Code, Jump, PatchToHere, PatchListAux, NeedValue;
    LabelEnc(fs);
    if NeedValue(fs.code, e.t) || NeedValue(fs.code, e.f) {
      JumpEnc(fs);
      var (fs1, fj) := if e.kind == VJMP then (fs, []) else Jump(fs);
      var fs2, fs3 := CodeLabel(fs1, reg, false, true), CodeLabel(CodeLabel(fs1, reg, false, true), reg, true, false);
      LabelEnc(fs1);
      CodeEnc(GetLabel(fs1), LOADBOOL(reg, false, true));
      LabelEnc(fs2);
      CodeEnc(GetLabel(fs2), LOADBOOL(reg, true, false));
      HereEnc(fs3, fj);
      var fs4 := PatchToHere(fs3, fj);
      LabelEnc(fs4);
      PatchEnc(GetLabel(fs4), e.f, |fs4.code|, reg, |fs1.code|);
      PatchEnc(PatchListAux(GetLabel(fs4), e.f, |fs4.code|, reg, |fs1.code|), e.t, |fs4.code|, reg, |fs2.code|);
    } else {
      PatchEnc(GetLabel(fs), e.f, |fs.code|, reg, NO_JUMP);
      PatchEnc(PatchListAux(GetLabel(fs), e.f, |fs.code|, reg, NO_JUMP), e.t, |fs.code|, reg, NO_JUMP);
    }
  }

  lemma LabelEnc(fs: FS)
    requires Enc(fs)
    ensures Enc(GetLabel(fs))
  {}

  lemma ToRegEnc(fs: FS, e0: Exp, reg: nat)
    requires Enc(fs) && SmallExp(fs, e0) && reg < 250 && FewConstants(Exp2Reg(fs, e0, reg).0)
    ensures Enc(Exp2Reg(fs, e0, reg).0)
  {
    hide Enc, Discharge2Reg, Concat, CloseJumps;
    var (fs1, e) := Discharge2Reg(fs, e0, reg);
    DischargeEnc(fs, e0, reg);
    ConcatEnc(fs1, e.t, [e.info]);
    var fs2 := if e.kind == VJMP then Concat(fs1, e.t, [e.info]) else fs1;
    CloseEnc(fs2, if e.kind == VJMP then e.(t := e.t + [e.info]) else e, reg);
  }

  lemma NextRegEnc(fs: FS, e: Exp)
    requires Enc(fs) && SmallExp(fs, e) && StackOK(fs) && Exp2NextReg(fs, e).0.ok && FewConstants(Exp2NextReg(fs, e).0)
    ensures Enc(Exp2NextReg(fs, e).0)
  {
    hide Enc, Exp2Reg, FreeExp, ReserveRegs;
    var e1 := DischargeVars(e);
    FreeEnc(fs, e1);
    ReserveEnc(FreeExp(fs, e1));
    var fs1 := ReserveRegs(FreeExp(fs, e1), 1);
    ReservedFree(FreeExp(fs, e1));
    ToRegEnc(fs1, e1, fs1.freereg - 1);
  }

  lemma ReservedFree(fs: FS)
    ensures ReserveRegs(fs, 1).freereg == fs.freereg + 1 && ReserveRegs(fs, 1).k == fs.k
  {}

  lemma AnyRegEnc(fs: FS, e: Exp)
    requires Enc(fs) && SmallExp(fs, e) && StackOK(fs) && Exp2AnyReg(fs, e).0.ok && FewConstants(Exp2AnyReg(fs, e).0)
    ensures Enc(Exp2AnyReg(fs, e).0)
  {
    hide Enc, Exp2Reg, Exp2NextReg;
    var e1 := DischargeVars(e);
    if e1.kind == VNONRELOC && !HasJumps(e1) {
    } else if e1.kind == VNONRELOC && e1.info >= fs.nactvar {
      ToRegEnc(fs, e1, e1.info);
    } else {
      NextRegEnc(fs, e1);
    }
  }

  lemma RKEnc(fs: FS, e: Exp, b: nat, outer: set<nat>, base: nat)
    requires Enc(fs) && Tidy(fs, e, b, outer, base) && Exp2RK(fs, e).0.ok && FewConstants(Exp2RK(fs, e).0)
    ensures var (fs', e', rk) := Exp2RK(fs, e); Enc(fs') && rk < 512
  {
    RKTidy(fs, e, b, outer, base);
    OkBefore(fs, e);
    TidySmall(fs, e, b, outer, base);
    ShapedStack(fs, e, b, outer);
    hide Tidy, Step, Enc, Exp2AnyReg, SmallExp, StackOK;
    var (fs1, e1) := Exp2Val(fs, e);
    if HasJumps(e) {
      Val0(fs, e);
      AnyRegEnc(fs, e);
    } else {
      PlainRK(fs, e);
    }
  }

  lemma OkBefore(fs: FS, e: Exp)
    requires Exp2RK(fs, e).0.ok
    ensures fs.ok
  {}

  lemma Val0(fs: FS, e: Exp)
    requires HasJumps(e)
    ensures Exp2RK(fs, e).0 == Exp2AnyReg(fs, e).0
  {
    hide Exp2Reg;
  }

  lemma PlainRK(fs: FS, e: Exp)
    requires Enc(fs) && SmallExp(fs, e) && StackOK(fs) && Exp2RK(fs, e).0.ok && FewConstants(Exp2RK(fs, e).0) && !HasJumps(e)
    ensures Enc(Exp2RK(fs, e).0)
  {
    hide Exp2AnyReg;
    var e1 := DischargeVars(e);
    if e1.kind == VKNUM {
      AddEnc(fs, Num(e1.nval));
      var (fs1, i) := AddK(fs, Num(e1.nval));
      var e2 := e1.(kind := VK, info := i);
      if i > MAXINDEXRK { AnyRegEnc(fs1, e2); }
    } else if (e1.kind == VTRUE || e1.kind == VFALSE || e1.kind == VNIL) && |fs.k| <= MAXINDEXRK {
      AddEnc(fs, ConstantOf(e1));
    } else {
      if !(e1.kind == VK && e1.info <= MAXINDEXRK) { AnyRegEnc(fs, e1); }
    }
  }

  // ----- conditions -----

  lemma JumpOnCondEnc(fs: FS, e: Exp, cond: bool)
    requires Enc(fs) && SmallExp(fs, e) && StackOK(fs) && e.kind != VJMP && e.kind != VLOCAL
    requires JumpOnCond(fs, e, cond).0.ok && FewConstants(JumpOnCond(fs, e, cond).0)
    ensures Enc(JumpOnCond(fs, e, cond).0)
  {
    hide CondJump, Discharge2AnyReg, Code;
    if e.kind == VRELOCABLE && e.info < |fs.code| && fs.code[e.info].NOT? {
      assert fs.ok ==> Encodes(fs.code[e.info]);
      CondJumpEnc(fs.(code := fs.code[..|fs.code| - 1]), TEST(fs.code[e.info].b, !cond));
    } else {
      AnyReg0Enc(fs, e);
      var (fs1, e1) := Discharge2AnyReg(fs, e);
      FreeEnc(fs1, e1);
      CondJumpEnc(FreeExp(fs1, e1), TESTSET(NO_REG, e1.info, cond));
    }
  }

  lemma InvertEnc(fs: FS, e: Exp)
    requires Enc(fs)
    ensures Enc(InvertJump(fs, e)) && InvertJump(fs, e).k == fs.k
  {
    if fs.ok && Control(fs.code, e.info) < |fs.code| { assert Encodes(fs.code[Control(fs.code, e.info)]); }
  }

  lemma GoIfEnc(fs: FS, e0: Exp, flag: bool)
    requires Enc(fs) && SmallExp(fs, e0) && StackOK(fs)
    requires var fs' := (if flag then GoIfTrue(fs, e0) else GoIfFalse(fs, e0)).0; fs'.ok && FewConstants(fs')
    ensures Enc((if flag then GoIfTrue(fs, e0) else GoIfFalse(fs, e0)).0)
  {
    hide Enc, JumpOnCond, PatchToHere, Concat, InvertJump;
    var e := DischargeVars(e0);
    var constant := if flag then e.kind == VK || e.kind == VKNUM || e.kind == VTRUE else e.kind == VNIL || e.kind == VFALSE;
    var (fs1, pc) := if e.kind == VJMP then (if flag then InvertJump(fs, e) else fs, [e.info])
                     else if constant then (fs, []) else JumpOnCond(fs, e, !flag);
    InvertEnc(fs, e);
    if e.kind != VJMP && !constant { JumpOnCondEnc(fs, e, !flag); }
    ConcatEnc(fs1, if flag then e.f else e.t, pc);
    HereEnc(Concat(fs1, if flag then e.f else e.t, pc), if flag then e.t else e.f);
  }

  lemma NotEnc(fs: FS, e0: Exp)
    requires Enc(fs) && SmallExp(fs, e0) && StackOK(fs) && CodeNot(fs, e0).0.ok && FewConstants(CodeNot(fs, e0).0)
    ensures Enc(CodeNot(fs, e0).0)
  {
    hide Enc, NotValue, RemoveValues;
    var e := DischargeVars(e0);
    NotValueEnc(fs, e);
    var (fs1, e1) := NotValue(fs, e);
    RemoveEnc(fs1, e1.t);
    var fs2 := fs1.(code := RemoveValues(fs1.code, e1.t));
    RemoveEnc(fs2, e1.f);
    assert fs2.(code := RemoveValues(fs2.code, e1.f)) == CodeNot(fs, e0).0;
  }

  lemma NotValueEnc(fs: FS, e: Exp)
    requires Enc(fs) && SmallExp(fs, e) && StackOK(fs) && NotValue(fs, e).0.ok && FewConstants(NotValue(fs, e).0) && e.kind != VLOCAL
    ensures Enc(NotValue(fs, e).0)
  {
    hide Enc, Discharge2AnyReg, Code, InvertJump, FreeExp;
    InvertEnc(fs, e);
    if e.kind == VNONRELOC || e.kind == VRELOCABLE {
      AnyReg0Enc(fs, e);
      var (fs1, e1) := Discharge2AnyReg(fs, e);
      FreeEnc(fs1, e1);
      CodeEnc(FreeExp(fs1, e1), NOT(0, e1.info));
    }
  }

  // ----- operators -----

  lemma FreeBothEnc(fs: FS, p: Exp, q: Exp)
    requires Enc(fs)
    ensures Enc(FreeExp(FreeExp(fs, p), q))
  {
    hide FreeExp, Enc;
    FreeEnc(fs, p);
    FreeEnc(FreeExp(fs, p), q);
  }

  lemma OperandSmall(e: Exp, rk: nat)
    requires IsOperand(e, rk)
    ensures rk < 512
  {}

  lemma ArithEnc(ops: Ops, fs: FS, op: ArithOp, e1: Exp, e2: Exp, b: nat, outer: set<nat>, base: nat)
    requires Enc(fs) && Tidy(fs, e2, b, outer, base) && (IsNumeral(e1) || exists rk: nat :: IsOperand(e1, rk))
    requires CodeArith(ops, fs, op, e1, e2).0.ok && FewConstants(CodeArith(ops, fs, op, e1, e2).0)
    ensures Enc(CodeArith(ops, fs, op, e1, e2).0)
  {
    hide Enc, Exp2RK, FreeExp, Code, Tidy;
    if !Folds(ops, op, e1, e2) {
      var (fs1, q, o2) := Exp2RK(fs, e2);
      var (fs2, p, o1) := Exp2RK(fs1, e1);
      var fs3 := if o1 > o2 then FreeExp(FreeExp(fs2, p), q) else FreeExp(FreeExp(fs2, q), p);
      assert fs3.ok && FewConstants(fs3) && fs2.ok && FewConstants(fs2) && fs1.ok && FewConstants(fs1);
      RKEnc(fs, e2, b, outer, base);
      if IsNumeral(e1) {
        NumeralTidyThen(fs, e2, b, outer, base, e1);
        RKEnc(fs1, e1, b, outer, fs1.freereg);
      } else {
        var rk: nat :| IsOperand(e1, rk);
        A.OperandIsRK(fs1, e1, rk);
        OperandSmall(e1, rk);
      }
      FreeBothEnc(fs2, p, q);
      FreeBothEnc(fs2, q, p);
      CodeEnc(fs3, ARITH(op, 0, o1, o2));
    }
  }

  lemma NumeralTidyThen(fs: FS, e2: Exp, b: nat, outer: set<nat>, base: nat, e1: Exp)
    requires Tidy(fs, e2, b, outer, base) && IsNumeral(e1) && Exp2RK(fs, e2).0.ok
    ensures var fs1 := Exp2RK(fs, e2).0; Tidy(fs1, e1, b, outer, fs1.freereg)
  {
    RKTidy(fs, e2, b, outer, base);
    hide Exp2RK, Shaped, LinksOK;
    var (fs1, q, o2) := Exp2RK(fs, e2);
    PlainTidy(fs1, q, b, outer, base, e1);
  }

  lemma CompEnc(fs: FS, op: CmpOp, cond: bool, e1: Exp, e2: Exp, rk: nat, b: nat, outer: set<nat>, base: nat)
    requires Enc(fs) && Tidy(fs, e2, b, outer, base) && IsOperand(e1, rk)
    requires CodeComp(fs, op, cond, e1, e2).0.ok && FewConstants(CodeComp(fs, op, cond, e1, e2).0)
    ensures Enc(CodeComp(fs, op, cond, e1, e2).0)
  {
    hide Enc, Exp2RK, FreeExp, CondJump, Tidy;
    A.OperandIsRK(fs, e1, rk);
    OperandSmall(e1, rk);
    var (fs2, q, o2) := Exp2RK(fs, e2);
    var fs3 := FreeExp(FreeExp(fs2, q), e1);
    assert fs3.ok && FewConstants(fs3) && fs2.ok && FewConstants(fs2);
    RKEnc(fs, e2, b, outer, base);
    FreeBothEnc(fs2, q, e1);
    var swap := !cond && op != Eq;
    CondJumpEnc(fs3, if swap then CMP(op, true, o2, rk) else CMP(op, cond, rk, o2));
  }

  lemma UnaryEnc(ops: Ops, fs: FS, e: Exp, op: UnOp, b: nat, outer: set<nat>, base: nat)
    requires Enc(fs) && Tidy(fs, e, b, outer, base) && PrefixUn(ops, fs, op, e).0.ok && FewConstants(PrefixUn(ops, fs, op, e).0)
    ensures Enc(PrefixUn(ops, fs, op, e).0)
  {
    hide Enc, Exp2AnyReg, Exp2RK, FreeExp, Code, Tidy, SmallExp, StackOK;
    if !(op == Minus && IsNumeral(e)) {
      var (fs1, e1) := Exp2AnyReg(fs, e);
      var (fs2, e2, o2) := Exp2RK(fs1, e1);
      assert fs2.ok && FewConstants(fs2) && fs1.ok && FewConstants(fs1) && fs.ok;
      TidySmall(fs, e, b, outer, base);
      TidyStack(fs, e, b, outer, base);
      AnyRegEnc(fs, e);
      AnyRegTidy(fs, e, b, outer, base);
      StepIsTidy(fs, fs1, e1, b, outer, base);
      RKEnc(fs1, e1, b, outer, base);
      FreeEnc(fs2, e2);
      CodeEnc(FreeExp(fs2, e2), UNARY(op, 0, o2));
    }
  }

  lemma TidyStack(fs: FS, e: Exp, b: nat, outer: set<nat>, base: nat)
    requires Tidy(fs, e, b, outer, base)
    ensures StackOK(fs)
  {}

  lemma StepIsTidy(fs: FS, fs': FS, e: Exp, b: nat, outer: set<nat>, base: nat)
    requires Step(fs, fs', e, b, outer, base)
    ensures Tidy(fs', e, b, outer, base)
  {}

  lemma InfixEnc(fs: FS, op: BinOp, e: Exp, b: nat, outer: set<nat>, base: nat)
    requires Enc(fs) && Tidy(fs, e, b, outer, base) && Infix(fs, op, e).0.ok && FewConstants(Infix(fs, op, e).0)
    ensures Enc(Infix(fs, op, e).0)
  {
    hide Enc, Tidy, GoIfTrue, GoIfFalse, Exp2RK, SmallExp, StackOK;
    if op.OprAnd? || op.OprOr? {
      TidySmall(fs, e, b, outer, base);
      TidyStack(fs, e, b, outer, base);
      GoIfEnc(fs, e, op.OprAnd?);
    } else if !(op.OprArith? && IsNumeral(e)) {
      RKEnc(fs, e, b, outer, base);
    }
  }

  lemma PosfixEnc(ops: Ops, fs2: FS, e1: Exp, fs3: FS, e2: Exp, op: BinOp, b: nat, outer: set<nat>, base: nat)
    requires Enc(fs3) && Waiting(fs2, e1, op) && Tidy(fs3, e2, b, outer, base) && !op.OprAnd? && !op.OprOr?
    requires Posfix(ops, fs3, op, e1, e2).0.ok && FewConstants(Posfix(ops, fs3, op, e1, e2).0)
    ensures Enc(Posfix(ops, fs3, op, e1, e2).0)
  {
    hide Enc, Tidy, CodeArith, CodeComp;
    if op.OprArith? {
      ArithEnc(ops, fs3, op.op, e1, e2, b, outer, base);
    } else {
      var rk: nat :| IsOperand(e1, rk);
      var (c, cond) := match op case OprCmp(c) => (c, true) case OprNe => (Eq, false) case OprGt => (Lt, false) case _ => (Le, false);
      CompEnc(fs3, c, cond, e1, e2, rk, b, outer, base);
    }
  }

  lemma LogicEnc(ops: Ops, fs3: FS, e1: Exp, e2: Exp, op: BinOp)
    requires Enc(fs3) && (op.OprAnd? || op.OprOr?)
    ensures Enc(Posfix(ops, fs3, op, e1, e2).0)
  {
    hide Concat, Enc;
    var e := DischargeVars(e2);
    ConcatEnc(fs3, e.f, e1.f);
    ConcatEnc(fs3, e.t, e1.t);
  }

  lemma SimpleEnc(fs: FS, v: Value)
    requires Enc(fs)
    ensures Enc(Simple(v, fs).0)
  {}

  // ----- whole expressions -----

  // Whatever is generated without an error can be encoded.
  lemma {:induction false} CompileEncodes(ops: Ops, fs: FS, x: Expr, b: nat, outer: set<nat>, base: nat)
    requires Shaped(fs, Nothing(), b, outer) && LinksOK(fs, Nothing()) && fs.freereg == base && fs.nactvar <= base
    requires Scoped(x, fs.nactvar) && Compile(ops, fs, x).0.ok && FewConstants(Compile(ops, fs, x).0) && Enc(fs)
    ensures Enc(Compile(ops, fs, x).0)
    decreases x, 0
  {
    hide Shaped, LinksOK, CodeNot, PrefixUn, Posfix, Infix, Tidy, Enc, Simple, Step, SmallExp, StackOK;
    match x
    case Const(v) => SimpleEnc(fs, v);
    case Local(i) =>
    case Paren(y) => CompileEncodes(ops, fs, y, b, outer, base);
    case Not(y) =>
      var (fs1, e) := Compile(ops, fs, y);
      CompileEncodes(ops, fs, y, b, outer, base);
      CompileTidy(ops, fs, y, b, outer, base);
      StepIsTidy(fs, fs1, e, b, outer, base);
      TidySmall(fs1, e, b, outer, base);
      TidyStack(fs1, e, b, outer, base);
      NotEnc(fs1, e);
    case Un(op, y) =>
      var (fs1, e) := Compile(ops, fs, y);
      CompileEncodes(ops, fs, y, b, outer, base);
      CompileTidy(ops, fs, y, b, outer, base);
      StepIsTidy(fs, fs1, e, b, outer, base);
      UnaryEnc(ops, fs1, e, op, b, outer, base);
    case Bin(op, a, y) =>
      var (fs1, e1) := Compile(ops, fs, a);
      assert fs1.ok && FewConstants(fs1);
      CompileEncodes(ops, fs, a, b, outer, base);
      CompileTidy(ops, fs, a, b, outer, base);
      StepIsTidy(fs, fs1, e1, b, outer, base);
      BinaryEnc(ops, fs1, e1, op, y, b, outer, base);
  }

  lemma {:induction false} BinaryEnc(ops: Ops, fs1: FS, e1: Exp, op: BinOp, y: Expr, b: nat, outer: set<nat>, base: nat)
    requires Tidy(fs1, e1, b, outer, base) && fs1.nactvar <= base && Scoped(y, fs1.nactvar) && Enc(fs1)
    requires var (fs2, e1') := Infix(fs1, op, e1); var (fs3, e2) := Compile(ops, fs2, y); var fs' := Posfix(ops, fs3, op, e1', e2).0;
             fs'.ok && FewConstants(fs')
    ensures var (fs2, e1') := Infix(fs1, op, e1); var (fs3, e2) := Compile(ops, fs2, y); Enc(Posfix(ops, fs3, op, e1', e2).0)
    decreases y, 1
  {
    hide Tidy, Shaped, LinksOK, Infix, Posfix, Compile, Enc, Step, RegsOK, Waiting;
    var (fs2, e1') := Infix(fs1, op, e1);
    var (fs3, e2) := Compile(ops, fs2, y);
    assert fs3.ok && FewConstants(fs3) && fs2.ok && FewConstants(fs2);
    InfixEnc(fs1, op, e1, b, outer, base);
    if op.OprAnd? || op.OprOr? {
      var l := if op.OprAnd? then e1'.f else e1'.t;
      F.ConditionReady(fs1, e1, op, b, outer, base);
      CompileEncodes(ops, fs2, y, b, outer + Elems(l), base);
      LogicEnc(ops, fs3, e1', e2, op);
    } else {
      FirstTidy(fs1, op, e1, b, outer, base);
      CompileEncodes(ops, fs2, y, b, outer, fs2.freereg);
      CompileTidy(ops, fs2, y, b, outer, fs2.freereg);
      StepIsTidy(fs2, fs3, e2, b, outer, fs2.freereg);
      PosfixEnc(ops, fs2, e1', fs3, e2, op, b, outer, fs2.freereg);
    }
  }
}
