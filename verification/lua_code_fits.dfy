// Which expressions can be compiled: a bound on the size of the code, and so on the length of jumps, by
// the number of tokens, and on the registers by the depth of the tree.
module LuaCodeFits {
  import opened LuaMachine
  import opened LuaCodegen
  import opened LuaCodeMeaning
  import opened LuaCodeOperands
  import opened LuaCodeRegs
  import opened LuaCodeRuns
  import opened LuaCodeCompile
  import opened LuaJumpLists
  import opened LuaJumpTidy
  import opened LuaJumpCompile
  import A = LuaCodeArith
  import P = LuaParse

  // No error so far; at most n instructions and m registers, within what jumps and stack allow.
  ghost predicate Fits(fs: FS, n: nat, m: nat) {
    fs.ok && |fs.code| <= n <= 131070 && fs.maxstack <= m < 250
  }

  ghost predicate Low(l: seq<nat>, n: nat) { forall i :: 0 <= i < |l| ==> l[i] < n }

  ghost predicate LowLists(fs: FS, e: Exp) {
    Low(fs.jpc, |fs.code|) && Low(e.t, |fs.code|) && Low(e.f, |fs.code|) && (e.kind == VJMP ==> e.info < |fs.code|)
  }

  lemma LinkedLow(code: seq<Instr>, l: seq<nat>)
    requires Linked(code, l)
    ensures Low(l, |code|)
  {}

  lemma TidyLow(fs: FS, e: Exp, b: nat, outer: set<nat>, base: nat)
    requires Tidy(fs, e, b, outer, base)
    ensures LowLists(fs, e)
  {
    LinkedLow(fs.code, fs.jpc);
    LinkedLow(fs.code, e.t);
    LinkedLow(fs.code, e.f);
    if e.kind == VJMP { LinkedLow(fs.code, [e.info]); assert [e.info][0] == e.info; }
  }

  // ----- jumps -----

  lemma FixJumpFits(fs: FS, pc: nat, dest: int, n: nat, m: nat)
    requires Fits(fs, n, m) && -1 <= dest <= |fs.code|
    ensures Fits(FixJump(fs, pc, dest), n, m)
  {}

  lemma ConcatFits(fs: FS, a: seq<nat>, b: seq<nat>, n: nat, m: nat)
    requires Fits(fs, n, m) && Low(b, |fs.code|)
    ensures Fits(Concat(fs, a, b), n, m) && |Concat(fs, a, b).code| == |fs.code| && Concat(fs, a, b).jpc == fs.jpc
  {
    if a != [] && b != [] { FixJumpFits(fs, a[|a| - 1], b[0], n, m); }
  }

  lemma {:induction false} PatchFits(fs: FS, list: seq<nat>, vt: int, reg: nat, dt: int, n: nat, m: nat)
    requires Fits(fs, n, m) && -1 <= vt <= |fs.code| && -1 <= dt <= |fs.code|
    ensures Fits(PatchListAux(fs, list, vt, reg, dt), n, m)
    decreases |list|
  {
    if list != [] {
      var target := if ProducesValue(fs.code, list[0]) then vt else dt;
      var fs1 := fs.(code := PatchTestReg(fs.code, list[0], reg));
      hide PatchTestReg;
      FixJumpFits(fs1, list[0], target, n, m);
      PatchFits(FixJump(fs1, list[0], target), list[1..], vt, reg, dt, n, m);
    }
  }

  lemma CodeFits(fs: FS, i: Instr, n: nat, m: nat)
    requires Fits(fs, n, m) && n + 1 <= 131070
    ensures Fits(Code(fs, i), n + 1, m) && |Code(fs, i).code| == |fs.code| + 1 && Code(fs, i).jpc == []
  {
    PatchFits(fs, fs.jpc, |fs.code|, NO_REG, |fs.code|, n, m);
  }

  lemma HereFits(fs: FS, list: seq<nat>, n: nat, m: nat)
    requires Fits(fs, n, m) && Low(list, |fs.code|) && Low(fs.jpc, |fs.code|)
    ensures Fits(PatchToHere(fs, list), n, m) && |PatchToHere(fs, list).code| == |fs.code|
    ensures Low(PatchToHere(fs, list).jpc, |fs.code|)
  {
    ConcatFits(GetLabel(fs), fs.jpc, list, n, m);
  }

  lemma JumpFits(fs: FS, n: nat, m: nat)
    requires Fits(fs, n, m) && n + 1 <= 131070 && Low(fs.jpc, |fs.code|)
    ensures var (fs', l) := Jump(fs); Fits(fs', n + 1, m) && |fs'.code| == |fs.code| + 1 && Low(l, |fs'.code|) && fs'.jpc == []
  {
    var fs1 := Code(fs.(jpc := []), JMP(NO_JUMP));
    CodeFits(fs.(jpc := []), JMP(NO_JUMP), n, m);
    ConcatFits(fs1, [|fs.code|], fs.jpc, n + 1, m);
  }

  lemma CondJumpFits(fs: FS, i: Instr, n: nat, m: nat)
    requires Fits(fs, n, m) && n + 2 <= 131070
    ensures var (fs', l) := CondJump(fs, i); Fits(fs', n + 2, m) && |fs'.code| == |fs.code| + 2 && Low(l, |fs'.code|) && fs'.jpc == []
  {
    CodeFits(fs, i, n, m);
    JumpFits(Code(fs, i), n + 1, m);
  }

  // ----- registers -----

  lemma ReserveFits(fs: FS, n: nat, m: nat)
    requires Fits(fs, n, m) && fs.freereg + 1 <= m
    ensures Fits(ReserveRegs(fs, 1), n, m) && ReserveRegs(fs, 1).freereg == fs.freereg + 1
  {}

  lemma FreeFits(fs: FS, e: Exp, n: nat, m: nat)
    requires Fits(fs, n, m)
    ensures Fits(FreeExp(fs, e), n, m) && FreeExp(fs, e).freereg <= fs.freereg
  {}

  lemma FreedReg(fs: FS, e: Exp, base: nat)
    requires RegsOK(fs, e, base) && base < 250
    ensures FreeExp(fs, e).freereg == base
  {}

  // ----- discharging -----

  lemma NilsFit(fs: FS, reg: nat, n: nat, m: nat)
    requires Fits(fs, n, m) && n + 1 <= 131070
    ensures Fits(LoadNils(fs, reg, 1), n + 1, m)
  {
    CodeFits(fs, LOADNIL(reg, 0), n, m);
  }

  lemma CodeKFits(fs: FS, reg: nat, k: nat, n: nat, m: nat)
    requires Fits(fs, n, m) && n + 2 <= 131070
    ensures Fits(CodeK(fs, reg, k), n + 2, m)
  {
    CodeFits(fs, LOADK(reg, k), n, m);
    CodeFits(fs, LOADKX(reg), n, m);
    CodeFits(Code(fs, LOADKX(reg)), EXTRAARG(k), n + 1, m);
  }

  lemma DischargeFits(fs: FS, e0: Exp, reg: nat, n: nat, m: nat)
    requires Fits(fs, n, m) && n + 2 <= 131070
    ensures Fits(Discharge2Reg(fs, e0, reg).0, n + 2, m)
  {
    hide Code, CodeK, LoadNils;
    var e := DischargeVars(e0);
    match e.kind
    case VNIL => NilsFit(fs, reg, n, m);
    case VFALSE => CodeFits(fs, LOADBOOL(reg, false, false), n, m);
    case VTRUE => CodeFits(fs, LOADBOOL(reg, true, false), n, m);
    case VK => CodeKFits(fs, reg, e.info, n, m);
    case VKNUM => CodeKFits(AddK(fs, Num(e.nval)).0, reg, AddK(fs, Num(e.nval)).1, n, m);
    case VNONRELOC => CodeFits(fs, MOVE(reg, e.info), n, m);
    case _ =>
  }

  lemma AnyRegFits0(fs: FS, e: Exp, n: nat, m: nat)
    requires Fits(fs, n, m) && n + 2 <= 131070 && fs.freereg + 1 <= m
    ensures Fits(Discharge2AnyReg(fs, e).0, n + 2, m)
  {
    ReserveFits(fs, n, m);
    DischargeFits(ReserveRegs(fs, 1), e, ReserveRegs(fs, 1).freereg - 1, n, m);
  }

  // The jumps of a discharged expression are still in the code; what waits has been patched or is there.
  lemma DischargedLow(fs: FS, e0: Exp, reg: nat)
    requires LowLists(fs, e0)
    ensures var (fs1, e) := Discharge2Reg(fs, e0, reg);
            LowLists(fs1, e) && e.t == e0.t && e.f == e0.f && (e.kind == VJMP ==> fs1 == fs && e == e0)
  {
    var e := DischargeVars(e0);
    var res := Discharge2Reg(fs, e0, reg);
    assert res.0.jpc == [] || res.0.jpc == fs.jpc by { hide PatchListAux; }
    hide Code, CodeK, LoadNils;
    assert |fs.code| <= |res.0.code|;
  }

  lemma CloseFits(fs: FS, e: Exp, reg: nat, n: nat, m: nat)
    requires Fits(fs, n, m) && n + 3 <= 131070 && Low(fs.jpc, |fs.code|) && (e.kind == VJMP ==> true)
    ensures Fits(CloseJumps(fs, e, reg), n + 3, m)
  {
    hide Code, Jump, PatchToHere, PatchListAux;
    if NeedValue(fs.code, e.t) || NeedValue(fs.code, e.f) {
      if e.kind != VJMP { JumpFits(fs, n, m); }
      var (fs1, fj) := if e.kind == VJMP then (fs, []) else Jump(fs);
      var fs2, fs3 := CodeLabel(fs1, reg, false, true), CodeLabel(CodeLabel(fs1, reg, false, true), reg, true, false);
      CodeFits(GetLabel(fs1), LOADBOOL(reg, false, true), n + 1, m);
      CodeFits(GetLabel(fs2), LOADBOOL(reg, true, false), n + 2, m);
      HereFits(fs3, fj, n + 3, m);
      var fs4 := PatchToHere(fs3, fj);
      PatchFits(GetLabel(fs4), e.f, |fs4.code|, reg, |fs1.code|, n + 3, m);
      PatchFits(PatchListAux(GetLabel(fs4), e.f, |fs4.code|, reg, |fs1.code|), e.t, |fs4.code|, reg, |fs2.code|, n + 3, m);
    } else {
      PatchFits(GetLabel(fs), e.f, |fs.code|, reg, NO_JUMP, n, m);
      PatchFits(PatchListAux(GetLabel(fs), e.f, |fs.code|, reg, NO_JUMP), e.t, |fs.code|, reg, NO_JUMP, n, m);
    }
  }

  lemma ToRegFits(fs: FS, e0: Exp, reg: nat, n: nat, m: nat)
    requires Fits(fs, n, m) && n + 5 <= 131070 && LowLists(fs, e0)
    ensures Fits(Exp2Reg(fs, e0, reg).0, n + 5, m)
  {
    hide Discharge2Reg, Concat, CloseJumps;
    DischargeFits(fs, e0, reg, n, m);
    DischargedLow(fs, e0, reg);
    var (fs1, e) := Discharge2Reg(fs, e0, reg);
    if e.kind == VJMP { ConcatFits(fs1, e.t, [e.info], n + 2, m); }
    var fs2 := if e.kind == VJMP then Concat(fs1, e.t, [e.info]) else fs1;
    var e2 := if e.kind == VJMP then e.(t := e.t + [e.info]) else e;
    CloseFits(fs2, e2, reg, n + 2, m);
  }

  lemma NextRegFits(fs: FS, e: Exp, base: nat, n: nat, m: nat)
    requires Fits(fs, n, m) && n + 5 <= 131070 && LowLists(fs, e) && RegsOK(fs, e, base) && base + 1 <= m
    ensures Fits(Exp2NextReg(fs, e).0, n + 5, m)
  {
    hide Exp2Reg, RegsOK, LowLists, FreeExp, ReserveRegs, DischargeVars, Fits;
    FitsLimit(fs, n, m);
    VarsLow(fs, e, base);
    var e1 := DischargeVars(e);
    FreedReg(fs, e1, base);
    FreeFits(fs, e1, n, m);
    ReserveFits(FreeExp(fs, e1), n, m);
    var fs1 := ReserveRegs(FreeExp(fs, e1), 1);
    FreedLow(fs, e1);
    ToRegFits(fs1, e1, fs1.freereg - 1, n, m);
  }

  lemma FitsLimit(fs: FS, n: nat, m: nat)
    requires Fits(fs, n, m)
    ensures m < 250
  {}

  lemma FreedLow(fs: FS, e: Exp)
    requires LowLists(fs, e)
    ensures LowLists(ReserveRegs(FreeExp(fs, e), 1), e)
  {}

  lemma AnyRegFits(fs: FS, e: Exp, base: nat, n: nat, m: nat)
    requires Fits(fs, n, m) && n + 5 <= 131070 && LowLists(fs, e) && RegsOK(fs, e, base) && base + 1 <= m
    ensures Fits(Exp2AnyReg(fs, e).0, n + 5, m)
  {
    hide Exp2Reg, Exp2NextReg, RegsOK;
    var e1 := DischargeVars(e);
    assert Exp2NextReg(fs, e1) == Exp2NextReg(fs, e) by { SameNextReg(fs, e); }
    NextRegFits(fs, e, base, n, m);
    ToRegFits(fs, e1, e1.info, n, m);
  }

  lemma RKFits(fs: FS, e: Exp, b: nat, outer: set<nat>, base: nat, n: nat, m: nat)
    requires Fits(fs, n, m) && n + 5 <= 131070 && Tidy(fs, e, b, outer, base) && base + 1 <= m
    ensures Fits(Exp2RK(fs, e).0, n + 5, m)
  {
    TidyLow(fs, e, b, outer, base);
    TidyRegs(fs, e, b, outer, base);
    hide Tidy, RegsOK, Exp2AnyReg, Exp2RK, LowLists, Fits;
    if HasJumps(e) {
      AnyRegFits(fs, e, base, n, m);
      RKOfJumps(fs, e);
    } else {
      VarsLow(fs, e, base);
      RKOfPlain(fs, e);
      ConstFits(fs, DischargeVars(e), base, n, m);
    }
  }

  lemma RKOfJumps(fs: FS, e: Exp)
    requires HasJumps(e)
    ensures Exp2RK(fs, e).0 == Exp2AnyReg(fs, e).0
  {
    InReg(fs, e);
    hide Exp2AnyReg;
  }

  lemma RKOfPlain(fs: FS, e: Exp)
    requires !HasJumps(e)
    ensures Exp2RK(fs, e) == Exp2RK(fs, DischargeVars(e)) && !HasJumps(DischargeVars(e))
  {
    hide Exp2AnyReg;
  }

  lemma TidyRegs(fs: FS, e: Exp, b: nat, outer: set<nat>, base: nat)
    requires Tidy(fs, e, b, outer, base)
    ensures RegsOK(fs, e, base)
  {}

  lemma InReg(fs: FS, e: Exp)
    requires HasJumps(e)
    ensures var (fs1, e1) := Exp2AnyReg(fs, e); e1.kind == VNONRELOC && !HasJumps(e1) && Exp2AnyReg(fs1, e1) == (fs1, e1)
  {
    hide Exp2Reg;
  }

  lemma VarsLow(fs: FS, e: Exp, base: nat)
    requires LowLists(fs, e) && RegsOK(fs, e, base)
    ensures LowLists(fs, DischargeVars(e)) && RegsOK(fs, DischargeVars(e), base)
  {}

  // A constant goes into the table; if its index is too large, into a register.
  lemma ConstFits(fs: FS, e: Exp, base: nat, n: nat, m: nat)
    requires Fits(fs, n, m) && n + 5 <= 131070 && LowLists(fs, e) && RegsOK(fs, e, base) && base + 1 <= m && !HasJumps(e)
    ensures Fits(Exp2RK(fs, e).0, n + 5, m)
  {
    hide Exp2AnyReg;
    var (fs1, i) := if e.kind == VKNUM then AddK(fs, Num(e.nval)) else (fs, e.info);
    var e1 := if e.kind == VKNUM then e.(kind := VK, info := i) else e;
    AnyRegFits(fs1, DischargeVars(e1), base, n, m);
  }

  // ----- conditions -----

  lemma JumpOnCondFits(fs: FS, e: Exp, cond: bool, base: nat, n: nat, m: nat)
    requires Fits(fs, n, m) && n + 4 <= 131070 && RegsOK(fs, e, base) && base + 1 <= m && e.kind != VJMP && e.kind != VLOCAL
    ensures var (fs', l) := JumpOnCond(fs, e, cond); Fits(fs', n + 4, m) && Low(l, |fs'.code|) && fs'.jpc == []
  {
    hide CondJump, Discharge2Reg, Code;
    if e.kind == VRELOCABLE && e.info < |fs.code| && fs.code[e.info].NOT? {
      CondJumpFits(fs.(code := fs.code[..|fs.code| - 1]), TEST(fs.code[e.info].b, !cond), n, m);
    } else {
      if e.kind != VNONRELOC { AnyRegFits0(fs, e, n, m); }
      var (fs1, e1) := Discharge2AnyReg(fs, e);
      FreeFits(fs1, e1, n + 2, m);
      CondJumpFits(FreeExp(fs1, e1), TESTSET(NO_REG, e1.info, cond), n + 2, m);
    }
  }

  lemma InvertFits(fs: FS, e: Exp, n: nat, m: nat)
    requires Fits(fs, n, m)
    ensures Fits(InvertJump(fs, e), n, m) && |InvertJump(fs, e).code| == |fs.code| && InvertJump(fs, e).jpc == fs.jpc
  {}

  lemma GoIfFits(fs: FS, e0: Exp, flag: bool, base: nat, n: nat, m: nat)
    requires Fits(fs, n, m) && n + 4 <= 131070 && LowLists(fs, e0) && RegsOK(fs, e0, base) && base + 1 <= m
    ensures Fits((if flag then GoIfTrue(fs, e0) else GoIfFalse(fs, e0)).0, n + 4, m)
  {
    hide JumpOnCond, PatchToHere, Concat, InvertJump;
    VarsLow(fs, e0, base);
    var e := DischargeVars(e0);
    InvertFits(fs, e, n, m);
    if e.kind != VJMP { JumpOnCondFits(fs, e, !flag, base, n, m); }
    var (fs1, pc) :=
      if e.kind == VJMP then (if flag then InvertJump(fs, e) else fs, [e.info])
      else if (if flag then e.kind == VK || e.kind == VKNUM || e.kind == VTRUE else e.kind == VNIL || e.kind == VFALSE) then (fs, [])
      else JumpOnCond(fs, e, !flag);
    ConcatFits(fs1, if flag then e.f else e.t, pc, n + 4, m);
    HereFits(Concat(fs1, if flag then e.f else e.t, pc), if flag then e.t else e.f, n + 4, m);
  }

  lemma NotFits(fs: FS, e0: Exp, base: nat, n: nat, m: nat)
    requires Fits(fs, n, m) && n + 3 <= 131070 && LowLists(fs, e0) && RegsOK(fs, e0, base) && base + 1 <= m
    ensures Fits(CodeNot(fs, e0).0, n + 3, m)
  {
    VarsLow(fs, e0, base);
    var e := DischargeVars(e0);
    NotValueFits(fs, e, base, n, m);
    hide NotValue;
  }

  lemma NotValueFits(fs: FS, e: Exp, base: nat, n: nat, m: nat)
    requires Fits(fs, n, m) && n + 3 <= 131070 && RegsOK(fs, e, base) && base + 1 <= m && e.kind != VLOCAL
    ensures Fits(NotValue(fs, e).0, n + 3, m)
  {
    hide Discharge2Reg, Code, InvertJump;
    InvertFits(fs, e, n, m);
    if e.kind == VNONRELOC || e.kind == VRELOCABLE {
      if e.kind != VNONRELOC { AnyRegFits0(fs, e, n, m); }
      var (fs1, e1) := Discharge2AnyReg(fs, e);
      FreeFits(fs1, e1, n + 2, m);
      CodeFits(FreeExp(fs1, e1), NOT(0, e1.info), n + 2, m);
    }
  }

  // ----- operators -----

  lemma FreeBoth(fs: FS, p: Exp, q: Exp, n: nat, m: nat)
    requires Fits(fs, n, m)
    ensures Fits(FreeExp(FreeExp(fs, p), q), n, m)
  {}

  lemma ArithFits(ops: Ops, fs: FS, op: ArithOp, e1: Exp, e2: Exp, b: nat, outer: set<nat>, base: nat, n: nat, m: nat)
    requires Fits(fs, n, m) && Tidy(fs, e2, b, outer, base) && base + 1 <= m
    requires if IsNumeral(e1) then n + 11 <= 131070 && base + 2 <= m else n + 6 <= 131070 && exists rk: nat :: IsOperand(e1, rk)
    ensures Fits(CodeArith(ops, fs, op, e1, e2).0, n + if IsNumeral(e1) then 11 else 6, m)
  {
    hide Exp2RK, FreeExp, Code, Tidy;
    if !Folds(ops, op, e1, e2) {
      RKFits(fs, e2, b, outer, base, n, m);
      var (fs1, q, o2) := Exp2RK(fs, e2);
      var k := if IsNumeral(e1) then n + 10 else n + 5;
      if IsNumeral(e1) {
        RKThen(fs, e2, b, outer, base, e1, n + 5, m);
        RKFits(fs1, e1, b, outer, fs1.freereg, n + 5, m);
      } else {
        var rk: nat :| IsOperand(e1, rk);
        A.OperandIsRK(fs1, e1, rk);
      }
      var (fs2, p, o1) := Exp2RK(fs1, e1);
      assert Fits(fs2, k, m);
      FreeBoth(fs2, p, q, k, m);
      FreeBoth(fs2, q, p, k, m);
      var fs3 := if o1 > o2 then FreeExp(FreeExp(fs2, p), q) else FreeExp(FreeExp(fs2, q), p);
      CodeFits(fs3, ARITH(op, 0, o1, o2), k, m);
    }
  }

  // A numeral after the other operand
  lemma RKThen(fs: FS, e2: Exp, b: nat, outer: set<nat>, base: nat, e1: Exp, n: nat, m: nat)
    requires Tidy(fs, e2, b, outer, base) && IsNumeral(e1) && Fits(Exp2RK(fs, e2).0, n, m)
    ensures var fs1 := Exp2RK(fs, e2).0; Tidy(fs1, e1, b, outer, fs1.freereg) && fs1.freereg <= base + 1
  {
    RKTidy(fs, e2, b, outer, base);
    hide Exp2RK, Shaped, LinksOK;
    var (fs1, q, o2) := Exp2RK(fs, e2);
    PlainTidy(fs1, q, b, outer, base, e1);
  }

  lemma CompFits(fs: FS, op: CmpOp, cond: bool, e1: Exp, e2: Exp, rk: nat, b: nat, outer: set<nat>, base: nat, n: nat, m: nat)
    requires Fits(fs, n, m) && n + 7 <= 131070 && Tidy(fs, e2, b, outer, base) && base + 1 <= m && IsOperand(e1, rk)
    ensures Fits(CodeComp(fs, op, cond, e1, e2).0, n + 7, m)
  {
    hide Exp2RK, FreeExp, CondJump, Tidy;
    A.OperandIsRK(fs, e1, rk);
    RKFits(fs, e2, b, outer, base, n, m);
    var (fs2, q, o2) := Exp2RK(fs, e2);
    FreeBoth(fs2, q, e1, n + 5, m);
    var swap := !cond && op != Eq;
    CondJumpFits(FreeExp(FreeExp(fs2, q), e1), if swap then CMP(op, true, o2, rk) else CMP(op, cond, rk, o2), n + 5, m);
  }

  lemma UnaryFits(ops: Ops, fs: FS, e: Exp, op: UnOp, b: nat, outer: set<nat>, base: nat, n: nat, m: nat)
    requires Fits(fs, n, m) && n + 11 <= 131070 && Tidy(fs, e, b, outer, base) && base + 1 <= m
    ensures Fits(PrefixUn(ops, fs, op, e).0, n + 11, m)
  {
    hide Exp2AnyReg, Exp2RK, FreeExp, Code, Tidy;
    if !(op == Minus && IsNumeral(e)) {
      TidyLow(fs, e, b, outer, base);
      TidyRegs(fs, e, b, outer, base);
      AnyRegFits(fs, e, base, n, m);
      var (fs1, e1) := Exp2AnyReg(fs, e);
      AnyRegStep(fs, e, b, outer, base, n + 5, m);
      RKFits(fs1, e1, b, outer, base, n + 5, m);
      var (fs2, e2, o2) := Exp2RK(fs1, e1);
      FreeFits(fs2, e2, n + 10, m);
      CodeFits(FreeExp(fs2, e2), UNARY(op, 0, o2), n + 10, m);
    }
  }

  lemma AnyRegStep(fs: FS, e: Exp, b: nat, outer: set<nat>, base: nat, n: nat, m: nat)
    requires Tidy(fs, e, b, outer, base) && Fits(Exp2AnyReg(fs, e).0, n, m)
    ensures var (fs1, e1) := Exp2AnyReg(fs, e); Tidy(fs1, e1, b, outer, base)
  {
    AnyRegTidy(fs, e, b, outer, base);
  }

  // ----- whole expressions -----

  lemma InfixFits(fs: FS, op: BinOp, e: Exp, b: nat, outer: set<nat>, base: nat, n: nat, m: nat)
    requires Fits(fs, n, m) && Tidy(fs, e, b, outer, base) && base + 1 <= m && n + 5 <= 131070
    ensures Fits(Infix(fs, op, e).0, n + if op.OprArith? && IsNumeral(e) then 0 else 5, m)
  {
    TidyLow(fs, e, b, outer, base);
    TidyRegs(fs, e, b, outer, base);
    hide Tidy, RegsOK, LowLists, GoIfTrue, GoIfFalse, Exp2RK;
    if op.OprAnd? || op.OprOr? {
      GoIfFits(fs, e, op.OprAnd?, base, n, m);
    } else {
      RKFits(fs, e, b, outer, base, n, m);
    }
  }

  lemma PosfixFits(ops: Ops, fs2: FS, e1: Exp, fs3: FS, e2: Exp, op: BinOp, b: nat, outer: set<nat>, base: nat, n: nat, m: nat)
    requires RegsOK(fs2, e1, base) && Waiting(fs2, e1, op) && Tidy(fs3, e2, b, outer, fs2.freereg) && !op.OprAnd? && !op.OprOr?
    requires Fits(fs3, n, m) && base + 2 <= m && n + (if op.OprArith? && IsNumeral(e1) then 12 else 7) <= 131070
    ensures Fits(Posfix(ops, fs3, op, e1, e2).0, n + if op.OprArith? && IsNumeral(e1) then 12 else 7, m)
  {
    hide Tidy, CodeArith, CodeComp;
    if op.OprArith? {
      ArithFits(ops, fs3, op.op, e1, e2, b, outer, fs2.freereg, n, m);
    } else {
      var rk: nat :| IsOperand(e1, rk);
      var (c, cond) := match op case OprCmp(c) => (c, true) case OprNe => (Eq, false) case OprGt => (Lt, false) case _ => (Le, false);
      CompFits(fs3, c, cond, e1, e2, rk, b, outer, fs2.freereg, n, m);
    }
  }

  // Twelve instructions per token, and a register per level
  lemma {:induction false} CompileFits(ops: Ops, fs: FS, x: Expr, b: nat, outer: set<nat>, base: nat, n: nat, m: nat)
    requires Shaped(fs, Nothing(), b, outer) && LinksOK(fs, Nothing()) && fs.freereg == base && fs.nactvar <= base
    requires Scoped(x, fs.nactvar) && Fits(fs, n, m) && n + 12 * |P.Tokens(x)| <= 131070 && base + P.Depth(x) <= m
    ensures Fits(Compile(ops, fs, x).0, n + 12 * |P.Tokens(x)|, m)
    decreases x, 0
  {
    hide Shaped, LinksOK, RegsOK, CodeNot, PrefixUn, Posfix, Infix, Fits, Tidy, LowLists;
    match x
    case Const(v) => SimpleFits(fs, v, n, m);
    case Local(i) => MoreRoom(fs, n, n + 12, m);
    case Paren(y) =>
      CompileFits(ops, fs, y, b, outer, base, n, m);
      MoreRoom(Compile(ops, fs, y).0, n + 12 * |P.Tokens(y)|, n + 12 * |P.Tokens(x)|, m);
    case Not(y) =>
      CompileFits(ops, fs, y, b, outer, base, n, m);
      Compiles(ops, fs, y, b, outer, base, n + 12 * |P.Tokens(y)|, m);
      NotAfter(Compile(ops, fs, y).0, Compile(ops, fs, y).1, b, outer, base, n + 12 * |P.Tokens(y)|, m);
    case Un(op, y) =>
      CompileFits(ops, fs, y, b, outer, base, n, m);
      Compiles(ops, fs, y, b, outer, base, n + 12 * |P.Tokens(y)|, m);
      UnaryAfter(ops, Compile(ops, fs, y).0, Compile(ops, fs, y).1, op, b, outer, base, n + 12 * |P.Tokens(y)|, m);
    case Bin(op, a, y) =>
      CompileFits(ops, fs, a, b, outer, base, n, m);
      Compiles(ops, fs, a, b, outer, base, n + 12 * |P.Tokens(a)|, m);
      BinaryFits(ops, fs, Compile(ops, fs, a).0, Compile(ops, fs, a).1, op, y, b, outer, base, n + 12 * |P.Tokens(a)|, m);
  }

  lemma NotAfter(fs: FS, e: Exp, b: nat, outer: set<nat>, base: nat, n: nat, m: nat)
    requires Tidy(fs, e, b, outer, base) && Fits(fs, n, m) && n + 12 <= 131070 && base + 1 <= m
    ensures Fits(CodeNot(fs, e).0, n + 12, m)
  {
    hide Tidy, RegsOK, LowLists, CodeNot, Fits;
    TidyLow(fs, e, b, outer, base);
    TidyRegs(fs, e, b, outer, base);
    NotFits(fs, e, base, n, m);
    MoreRoom(CodeNot(fs, e).0, n + 3, n + 12, m);
  }

  lemma UnaryAfter(ops: Ops, fs: FS, e: Exp, op: UnOp, b: nat, outer: set<nat>, base: nat, n: nat, m: nat)
    requires Tidy(fs, e, b, outer, base) && Fits(fs, n, m) && n + 12 <= 131070 && base + 1 <= m
    ensures Fits(PrefixUn(ops, fs, op, e).0, n + 12, m)
  {
    hide Tidy, PrefixUn, Fits;
    UnaryFits(ops, fs, e, op, b, outer, base, n, m);
    MoreRoom(PrefixUn(ops, fs, op, e).0, n + 11, n + 12, m);
  }

  lemma MoreRoom(fs: FS, n: nat, n': nat, m: nat)
    requires Fits(fs, n, m) && n <= n' <= 131070
    ensures Fits(fs, n', m)
  {}

  lemma SimpleFits(fs: FS, v: Value, n: nat, m: nat)
    requires Fits(fs, n, m) && n + 12 <= 131070
    ensures Fits(Simple(v, fs).0, n + 12, m)
  {}

  lemma Compiles(ops: Ops, fs: FS, x: Expr, b: nat, outer: set<nat>, base: nat, n: nat, m: nat)
    requires Shaped(fs, Nothing(), b, outer) && LinksOK(fs, Nothing()) && fs.freereg == base && fs.nactvar <= base
    requires Scoped(x, fs.nactvar) && Fits(Compile(ops, fs, x).0, n, m)
    ensures var (fs', e') := Compile(ops, fs, x);
            Tidy(fs', e', b, outer, base) && SameJumps(fs.code, fs'.code, outer) && fs'.nactvar == fs.nactvar
  {
    CompileTidy(ops, fs, x, b, outer, base);
  }

  // The operator and the second operand, after the first
  lemma {:induction false} BinaryFits(ops: Ops, fs: FS, fs1: FS, e1: Exp, op: BinOp, y: Expr, b: nat, outer: set<nat>, base: nat, n: nat, m: nat)
    requires Tidy(fs1, e1, b, outer, base) && fs1.nactvar <= base && Scoped(y, fs1.nactvar) && Fits(fs1, n, m)
    requires n + 12 + 12 * |P.Tokens(y)| <= 131070 && base + 1 + P.Depth(y) <= m
    ensures var (fs2, e1') := Infix(fs1, op, e1); var (fs3, e2) := Compile(ops, fs2, y);
            Fits(Posfix(ops, fs3, op, e1', e2).0, n + 12 + 12 * |P.Tokens(y)|, m)
    decreases y, 1
  {
    hide Tidy, Shaped, LinksOK, RegsOK, Infix, Posfix, Compile, Fits;
    DepthPositive(y);
    InfixFits(fs1, op, e1, b, outer, base, n, m);
    var (fs2, e1') := Infix(fs1, op, e1);
    var (fs3, e2) := Compile(ops, fs2, y);
    if op.OprAnd? || op.OprOr? {
      var l := if op.OprAnd? then e1'.f else e1'.t;
      StillOK(fs2, n + 5, m);
      ConditionReady(fs1, e1, op, b, outer, base);
      CompileFits(ops, fs2, y, b, outer + Elems(l), base, n + 5, m);
      ExitsLow(fs2, l);
      LogicFits(ops, fs2, fs3, e1', e2, op, n + 5 + 12 * |P.Tokens(y)|, m);
      MoreRoom(Posfix(ops, fs3, op, e1', e2).0, n + 5 + 12 * |P.Tokens(y)|, n + 12 + 12 * |P.Tokens(y)|, m);
    } else {
      var c := if op.OprArith? && IsNumeral(e1) then 0 else 5;
      OperandReady(fs1, e1, op, b, outer, base, n + c, m);
      CompileFits(ops, fs2, y, b, outer, fs2.freereg, n + c, m);
      Compiles(ops, fs2, y, b, outer, fs2.freereg, n + c + 12 * |P.Tokens(y)|, m);
      PosfixFits(ops, fs2, e1', fs3, e2, op, b, outer, base, n + c + 12 * |P.Tokens(y)|, m);
    }
  }

  lemma {:induction false} DepthPositive(x: Expr)
    ensures P.Depth(x) >= 1
  {}

  lemma ExitsLow(fs: FS, l: seq<nat>)
    requires Linked(fs.code, l)
    ensures Low(l, |fs.code|)
  {}

  lemma LogicFits(ops: Ops, fs2: FS, fs3: FS, e1: Exp, e2: Exp, op: BinOp, n: nat, m: nat)
    requires Fits(fs3, n, m) && |fs2.code| <= |fs3.code| && (op.OprAnd? || op.OprOr?)
    requires Low(if op.OprAnd? then e1.f else e1.t, |fs2.code|)
    ensures Fits(Posfix(ops, fs3, op, e1, e2).0, n, m)
  {
    hide Concat;
    var e := DischargeVars(e2);
    if op.OprAnd? { ConcatFits(fs3, e.f, e1.f, n, m); } else { ConcatFits(fs3, e.t, e1.t, n, m); }
  }

  lemma ConditionReady(fs1: FS, e1: Exp, op: BinOp, b: nat, outer: set<nat>, base: nat)
    requires Tidy(fs1, e1, b, outer, base) && (op.OprAnd? || op.OprOr?) && Infix(fs1, op, e1).0.ok
    ensures var (fs2, e1') := Infix(fs1, op, e1); var l := if op.OprAnd? then e1'.f else e1'.t;
            Shaped(fs2, Nothing(), b, outer + Elems(l)) && LinksOK(fs2, Nothing()) && fs2.freereg == base && fs2.nactvar <= base &&
            Linked(fs2.code, l) && fs2.nactvar == fs1.nactvar
  {
    InfixIsGoIf(fs1, op, e1);
    GoIfTidy(fs1, e1, b, outer, base, op.OprAnd?);
    var (fs2, e1') := Infix(fs1, op, e1);
    RightTidy(fs2, e1', b, outer, op.OprAnd?);
  }

  lemma OperandReady(fs1: FS, e1: Exp, op: BinOp, b: nat, outer: set<nat>, base: nat, n: nat, m: nat)
    requires Tidy(fs1, e1, b, outer, base) && !op.OprAnd? && !op.OprOr? && Fits(Infix(fs1, op, e1).0, n, m)
    ensures var (fs2, e1') := Infix(fs1, op, e1);
            RegsOK(fs2, e1', base) && Waiting(fs2, e1', op) && fs2.nactvar <= fs2.freereg <= base + 1 && fs2.nactvar == fs1.nactvar &&
            Shaped(fs2, Nothing(), b, outer) && LinksOK(fs2, Nothing()) && (op.OprArith? && IsNumeral(e1') <==> op.OprArith? && IsNumeral(e1))
  {
    hide Shaped, LinksOK, RegsOK, Infix, Step, Waiting;
    StillOK(Infix(fs1, op, e1).0, n, m);
    FirstTidy(fs1, op, e1, b, outer, base);
    var (fs2, e1') := Infix(fs1, op, e1);
    StepRegs(fs1, fs2, e1', b, outer, base);
    NumeralStays(fs1, op, e1, b, outer, base);
  }

  lemma StillOK(fs: FS, n: nat, m: nat)
    requires Fits(fs, n, m)
    ensures fs.ok
  {}

  lemma StepRegs(fs: FS, fs': FS, e: Exp, b: nat, outer: set<nat>, base: nat)
    requires Step(fs, fs', e, b, outer, base)
    ensures RegsOK(fs', e, base) && fs'.freereg <= base + 1
  {
    hide Shaped, LinksOK;
  }

  lemma NumeralStays(fs: FS, op: BinOp, e: Exp, b: nat, outer: set<nat>, base: nat)
    requires Tidy(fs, e, b, outer, base) && Infix(fs, op, e).0.ok && !op.OprAnd? && !op.OprOr?
    ensures op.OprArith? && IsNumeral(Infix(fs, op, e).1) <==> op.OprArith? && IsNumeral(e)
  {
    hide Exp2RK, Tidy, Step;
    if !(op.OprArith? && IsNumeral(e)) {
      RKTidy(fs, e, b, outer, base);
      assert IsOperand(Infix(fs, op, e).1, Exp2RK(fs, e).2);
    }
  }
}
