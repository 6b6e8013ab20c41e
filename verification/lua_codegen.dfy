// The expression code generator (lcode.c) as functions on its state.  Jump lists appear as
// sequences here; the links between their members are in the code, as the generator leaves them.
// LuaFuncState performs the same steps in place.
module LuaCodegen {
  import opened LuaMachine

  const NO_JUMP: int := -1
  const NO_REG: nat := 255
  const MAXSTACK: nat := 250
  const MAXARG_sBx: int := 131071
  const MAXARG_Bx: nat := 262143

  // 'ok' turns false where luaX_syntaxerror would end code generation; what the generator holds
  // after that has no meaning.
  datatype FS = FS(code: seq<Instr>, jpc: seq<nat>, lasttarget: nat, k: seq<Value>,
                   nactvar: nat, freereg: nat, maxstack: nat, ok: bool)

  datatype Kind = VNIL | VTRUE | VFALSE | VK | VKNUM | VNONRELOC | VLOCAL | VJMP | VRELOCABLE

  datatype Exp = Exp(kind: Kind, info: nat, nval: int, t: seq<nat>, f: seq<nat>)

  function Head(list: seq<nat>): int { if list == [] then NO_JUMP else list[0] }

  predicate HasJumps(e: Exp) { Head(e.t) != Head(e.f) }

  predicate IsNumeral(e: Exp) { e.kind == VKNUM && e.t == [] && e.f == [] }

  // What no step takes back: an error, the constants, the stack size.
  ghost predicate Grows(fs: FS, fs': FS) {
    (fs'.ok ==> fs.ok) && fs.k <= fs'.k && fs'.nactvar == fs.nactvar && fs.maxstack <= fs'.maxstack &&
    |fs.code| <= |fs'.code|
  }

  // A step that leaves the register stack alone.
  ghost predicate Emits(fs: FS, fs': FS) {
    Grows(fs, fs') && fs'.freereg == fs.freereg && fs'.maxstack == fs.maxstack
  }

  // ----- jumps -----

  function FixJump(fs: FS, pc: nat, dest: int): (fs': FS)
    ensures Emits(fs, fs')
  {
    if pc < |fs.code| then
      fs.(code := fs.code[pc := JMP(dest - (pc + 1))],
          ok := fs.ok && -MAXARG_sBx <= dest - (pc + 1) <= MAXARG_sBx)
    else fs
  }

  function Concat(fs: FS, l1: seq<nat>, l2: seq<nat>): (fs': FS)
    ensures Emits(fs, fs')
  {
    if l1 == [] || l2 == [] then fs else FixJump(fs, l1[|l1| - 1], l2[0])
  }

  // getjumpcontrol
  function Control(code: seq<Instr>, pc: nat): (c: nat)
    ensures pc < |code| ==> c < |code|
  {
    if pc >= 1 && pc - 1 < |code| && TMode(code[pc - 1]) then pc - 1 else pc
  }

  predicate ProducesValue(code: seq<Instr>, pc: nat) {
    var c := Control(code, pc);
    c < |code| && code[c].TESTSET?
  }

  predicate NeedValue(code: seq<Instr>, list: seq<nat>) {
    list != [] && (!ProducesValue(code, list[0]) || NeedValue(code, list[1..]))
  }

  // patchtestreg
  function PatchTestReg(code: seq<Instr>, node: nat, reg: nat): (code': seq<Instr>)
    ensures |code'| == |code|
  {
    if !ProducesValue(code, node) then code
    else
      var c := Control(code, node);
      if reg != NO_REG && reg != code[c].b then code[c := TESTSET(reg, code[c].b, code[c].c)]
      else code[c := TEST(code[c].b, code[c].c)]
  }

  function RemoveValues(code: seq<Instr>, list: seq<nat>): (code': seq<Instr>)
    ensures |code'| == |code|
    decreases |list|
  {
    if list == [] then code else RemoveValues(PatchTestReg(code, list[0], NO_REG), list[1..])
  }

  function PatchListAux(fs: FS, list: seq<nat>, vtarget: int, reg: nat, dtarget: int): (fs': FS)
    ensures |fs'.code| == |fs.code| && fs' == fs.(code := fs'.code, ok := fs'.ok) && Emits(fs, fs')
    decreases |list|
  {
    if list == [] then fs
    else
      var target := if ProducesValue(fs.code, list[0]) then vtarget else dtarget;
      PatchListAux(FixJump(fs.(code := PatchTestReg(fs.code, list[0], reg)), list[0], target), list[1..], vtarget, reg, dtarget)
  }

  function DischargeJpc(fs: FS): (fs': FS)
    ensures Emits(fs, fs')
  {
    PatchListAux(fs, fs.jpc, |fs.code|, NO_REG, |fs.code|).(jpc := [])
  }

  function Code(fs: FS, i: Instr): (fs': FS)
    ensures Emits(fs, fs')
  {
    var fs1 := DischargeJpc(fs);
    fs1.(code := fs1.code + [i])
  }

  function GetLabel(fs: FS): (fs': FS)
    ensures Emits(fs, fs')
  {
    fs.(lasttarget := |fs.code|)
  }

  function PatchToHere(fs: FS, list: seq<nat>): (fs': FS)
    ensures Emits(fs, fs')
  {
    Concat(GetLabel(fs), fs.jpc, list).(jpc := fs.jpc + list)
  }

  // luaK_jump: the new list is the jump followed by the jumps that were waiting for it
  function Jump(fs: FS): (res: (FS, seq<nat>))
    ensures Emits(fs, res.0)
  {
    var fs1 := Code(fs.(jpc := []), JMP(NO_JUMP));
    (Concat(fs1, [|fs.code|], fs.jpc), [|fs.code|] + fs.jpc)
  }

  function CondJump(fs: FS, i: Instr): (res: (FS, seq<nat>))
    ensures Emits(fs, res.0)
  {
    Jump(Code(fs, i))
  }

  // luaK_nil
  function LoadNils(fs: FS, from: nat, n: nat): (fs': FS)
    requires n > 0
    ensures Emits(fs, fs')
  {
    var l := from + n - 1;
    if |fs.code| > fs.lasttarget && fs.code[|fs.code| - 1].LOADNIL? then
      var prev := fs.code[|fs.code| - 1];
      var pfrom, pl := prev.a, prev.a + prev.n;
      if pfrom <= from <= pl + 1 || from <= pfrom <= l + 1 then
        var from' := if pfrom < from then pfrom else from;
        var l' := if pl > l then pl else l;
        fs.(code := fs.code[|fs.code| - 1 := LOADNIL(from', l' - from')])
      else Code(fs, LOADNIL(from, n - 1))
    else Code(fs, LOADNIL(from, n - 1))
  }

  // ----- registers and constants -----

  function ReserveRegs(fs: FS, n: nat): (fs': FS)
    ensures Grows(fs, fs')
  {
    var newstack := fs.freereg + n;
    if newstack > fs.maxstack
    then fs.(freereg := newstack, maxstack := newstack, ok := fs.ok && newstack < MAXSTACK)
    else fs.(freereg := newstack)
  }

  function FreeReg(fs: FS, reg: nat): (fs': FS)
    ensures Grows(fs, fs')
  {
    if !ISK(reg) && reg >= fs.nactvar && fs.freereg > 0 then fs.(freereg := fs.freereg - 1) else fs
  }

  function FreeExp(fs: FS, e: Exp): (fs': FS)
    ensures Grows(fs, fs')
  {
    if e.kind == VNONRELOC then FreeReg(fs, e.info) else fs
  }

  function IndexOf(k: seq<Value>, v: Value): (i: nat)
    requires v in k
    ensures i < |k| && k[i] == v
  {
    if k[0] == v then 0 else 1 + IndexOf(k[1..], v)
  }

  // addk: a constant already in the table is reused
  function AddK(fs: FS, v: Value): (res: (FS, nat))
    ensures Emits(fs, res.0)
  {
    if v in fs.k then (fs, IndexOf(fs.k, v)) else (fs.(k := fs.k + [v]), |fs.k|)
  }

  function CodeK(fs: FS, reg: nat, k: nat): (fs': FS)
    ensures Emits(fs, fs')
  {
    if k <= MAXARG_Bx then Code(fs, LOADK(reg, k)) else Code(Code(fs, LOADKX(reg)), EXTRAARG(k))
  }

  // ----- discharging expressions -----

  function DischargeVars(e: Exp): Exp { if e.kind == VLOCAL then e.(kind := VNONRELOC) else e }

  // SETARG_A on an instruction that waits for its register
  function WithA(i: Instr, reg: nat): Instr {
    match i
    case ARITH(op, _, b, c) => ARITH(op, reg, b, c)
    case UNARY(op, _, b) => UNARY(op, reg, b)
    case NOT(_, b) => NOT(reg, b)
    case _ => i
  }

  function SetA(code: seq<Instr>, pc: nat, reg: nat): (code': seq<Instr>)
    ensures |code'| == |code|
  {
    if pc < |code| then code[pc := WithA(code[pc], reg)] else code
  }

  function Discharge2Reg(fs: FS, e0: Exp, reg: nat): (res: (FS, Exp))
    ensures Emits(fs, res.0)
  {
    var e := DischargeVars(e0);
    var done := e.(kind := VNONRELOC, info := reg);
    match e.kind
    case VNIL => (LoadNils(fs, reg, 1), done)
    case VFALSE => (Code(fs, LOADBOOL(reg, false, false)), done)
    case VTRUE => (Code(fs, LOADBOOL(reg, true, false)), done)
    case VK => (CodeK(fs, reg, e.info), done)
    case VKNUM => var (fs1, i) := AddK(fs, Num(e.nval)); (CodeK(fs1, reg, i), done)
    case VRELOCABLE => (fs.(code := SetA(fs.code, e.info, reg)), done)
    case VNONRELOC => if reg != e.info then (Code(fs, MOVE(reg, e.info)), done) else (fs, done)
    case VLOCAL => (fs, done)
    case VJMP => (fs, e)
  }

  function Discharge2AnyReg(fs: FS, e: Exp): (res: (FS, Exp))
    ensures Grows(fs, res.0)
  {
    if e.kind != VNONRELOC then
      var fs1 := ReserveRegs(fs, 1);
      Discharge2Reg(fs1, e, fs1.freereg - 1)
    else (fs, e)
  }

  function CodeLabel(fs: FS, a: nat, b: bool, skip: bool): (fs': FS)
    ensures Emits(fs, fs')
  {
    Code(GetLabel(fs), LOADBOOL(a, b, skip))
  }

  // The second half of exp2reg: the jumps out of the expression get a place to go.
  function CloseJumps(fs: FS, e: Exp, reg: nat): (fs': FS)
    ensures Emits(fs, fs')
  {
    if NeedValue(fs.code, e.t) || NeedValue(fs.code, e.f) then
      var (fs1, fj) := if e.kind == VJMP then (fs, []) else Jump(fs);
      var fs2 := CodeLabel(fs1, reg, false, true);
      var fs3 := CodeLabel(fs2, reg, true, false);
      var fs4 := PatchToHere(fs3, fj);
      var p_f, p_t, final := |fs1.code|, |fs2.code|, |fs4.code|;
      PatchListAux(PatchListAux(GetLabel(fs4), e.f, final, reg, p_f), e.t, final, reg, p_t)
    else
      var final := |fs.code|;
      PatchListAux(PatchListAux(GetLabel(fs), e.f, final, reg, NO_JUMP), e.t, final, reg, NO_JUMP)
  }

  function Exp2Reg(fs: FS, e0: Exp, reg: nat): (res: (FS, Exp))
    ensures Emits(fs, res.0)
    ensures res.1 == Exp(VNONRELOC, reg, e0.nval, [], [])
  {
    var (fs1, e) := Discharge2Reg(fs, e0, reg);
    var fs2 := if e.kind == VJMP then Concat(fs1, e.t, [e.info]) else fs1;
    var e2 := if e.kind == VJMP then e.(t := e.t + [e.info]) else e;
    var fs3 := if HasJumps(e2) then CloseJumps(fs2, e2, reg) else fs2;
    (fs3, Exp(VNONRELOC, reg, e.nval, [], []))
  }

  function Exp2NextReg(fs: FS, e0: Exp): (res: (FS, Exp))
    ensures Grows(fs, res.0)
  {
    var e := DischargeVars(e0);
    var fs1 := ReserveRegs(FreeExp(fs, e), 1);
    Exp2Reg(fs1, e, fs1.freereg - 1)
  }

  function Exp2AnyReg(fs: FS, e0: Exp): (res: (FS, Exp))
    ensures Grows(fs, res.0)
  {
    var e := DischargeVars(e0);
    if e.kind == VNONRELOC && !HasJumps(e) then (fs, e)
    else if e.kind == VNONRELOC && e.info >= fs.nactvar then Exp2Reg(fs, e, e.info)
    else Exp2NextReg(fs, e)
  }

  function Exp2Val(fs: FS, e: Exp): (res: (FS, Exp))
    ensures Grows(fs, res.0)
  {
    if HasJumps(e) then Exp2AnyReg(fs, e) else (fs, DischargeVars(e))
  }

  function ConstantOf(e: Exp): Value {
    match e.kind
    case VTRUE => Bool(true)
    case VFALSE => Bool(false)
    case VKNUM => Num(e.nval)
    case _ => Nil
  }

  function Exp2RK(fs0: FS, e0: Exp): (res: (FS, Exp, nat))
    ensures Grows(fs0, res.0)
  {
    var (fs, e) := Exp2Val(fs0, e0);
    if (e.kind == VTRUE || e.kind == VFALSE || e.kind == VNIL) && |fs.k| <= MAXINDEXRK then
      var (fs1, i) := AddK(fs, ConstantOf(e));
      (fs1, e.(kind := VK, info := i), i + BITRK)
    else
      var (fs1, i) := if e.kind == VKNUM then AddK(fs, Num(e.nval)) else (fs, e.info);
      var e1 := if e.kind == VKNUM then e.(kind := VK, info := i) else e;
      if e1.kind == VK && e1.info <= MAXINDEXRK then (fs1, e1, e1.info + BITRK)
      else var (fs2, e2) := Exp2AnyReg(fs1, e1); (fs2, e2, e2.info)
  }

  // ----- conditions -----

  function Inverted(i: Instr): Instr { if i.CMP? then i.(cond := !i.cond) else i }

  function InvertJump(fs: FS, e: Exp): (fs': FS)
    ensures Emits(fs, fs')
  {
    var c := Control(fs.code, e.info);
    if c < |fs.code| then fs.(code := fs.code[c := Inverted(fs.code[c])]) else fs
  }

  function JumpOnCond(fs: FS, e: Exp, cond: bool): (res: (FS, seq<nat>))
    ensures Grows(fs, res.0)
  {
    if e.kind == VRELOCABLE && e.info < |fs.code| && fs.code[e.info].NOT? then
      CondJump(fs.(code := fs.code[..|fs.code| - 1]), TEST(fs.code[e.info].b, !cond))
    else
      var (fs1, e1) := Discharge2AnyReg(fs, e);
      CondJump(FreeExp(fs1, e1), TESTSET(NO_REG, e1.info, cond))
  }

  function GoIfTrue(fs: FS, e0: Exp): (res: (FS, Exp))
    ensures Grows(fs, res.0)
  {
    var e := DischargeVars(e0);
    var (fs1, pc) :=
      if e.kind == VJMP then (InvertJump(fs, e), [e.info])
      else if e.kind == VK || e.kind == VKNUM || e.kind == VTRUE then (fs, [])
      else JumpOnCond(fs, e, false);
    (PatchToHere(Concat(fs1, e.f, pc), e.t), e.(f := e.f + pc, t := []))
  }

  function GoIfFalse(fs: FS, e0: Exp): (res: (FS, Exp))
    ensures Grows(fs, res.0)
  {
    var e := DischargeVars(e0);
    var (fs1, pc) :=
      if e.kind == VJMP then (fs, [e.info])
      else if e.kind == VNIL || e.kind == VFALSE then (fs, [])
      else JumpOnCond(fs, e, true);
    (PatchToHere(Concat(fs1, e.t, pc), e.f), e.(t := e.t + pc, f := []))
  }

  // codenot, before the lists are exchanged
  function NotValue(fs: FS, e: Exp): (res: (FS, Exp))
    ensures Grows(fs, res.0)
  {
    match e.kind
    case VNIL => (fs, e.(kind := VTRUE))
    case VFALSE => (fs, e.(kind := VTRUE))
    case VTRUE => (fs, e.(kind := VFALSE))
    case VK => (fs, e.(kind := VFALSE))
    case VKNUM => (fs, e.(kind := VFALSE))
    case VJMP => (InvertJump(fs, e), e)
    case _ =>
      var (fs1, e1) := Discharge2AnyReg(fs, e);
      var fs2 := FreeExp(fs1, e1);
      (Code(fs2, NOT(0, e1.info)), e1.(kind := VRELOCABLE, info := |fs2.code|))
  }

  function CodeNot(fs: FS, e0: Exp): (res: (FS, Exp))
    ensures Grows(fs, res.0)
  {
    var (fs1, e) := NotValue(fs, DischargeVars(e0));
    (fs1.(code := RemoveValues(RemoveValues(fs1.code, e.t), e.f)), e.(t := e.f, f := e.t))
  }

  // ----- operators -----

  predicate Folds(ops: Ops, op: ArithOp, e1: Exp, e2: Exp) {
    IsNumeral(e1) && IsNumeral(e2) && !((op == Div || op == Mod) && ops.isZero(e2.nval))
  }

  function CodeArith(ops: Ops, fs: FS, op: ArithOp, e1: Exp, e2: Exp): (res: (FS, Exp))
    ensures Grows(fs, res.0)
  {
    if Folds(ops, op, e1, e2) then (fs, e1.(nval := ops.num(op, e1.nval, e2.nval)))
    else
      var (fs1, e2', o2) := Exp2RK(fs, e2);
      var (fs2, e1', o1) := Exp2RK(fs1, e1);
      var fs3 := if o1 > o2 then FreeExp(FreeExp(fs2, e1'), e2') else FreeExp(FreeExp(fs2, e2'), e1');
      (Code(fs3, ARITH(op, 0, o1, o2)), e1'.(kind := VRELOCABLE, info := |fs3.code|))
  }

  function CodeUnary(fs: FS, op: UnOp, e: Exp): (res: (FS, Exp))
    ensures Grows(fs, res.0)
  {
    var (fs1, e1, o1) := Exp2RK(fs, e);
    var fs2 := FreeExp(fs1, e1);
    (Code(fs2, UNARY(op, 0, o1)), e1.(kind := VRELOCABLE, info := |fs2.code|))
  }

  function CodeComp(fs: FS, op: CmpOp, cond: bool, e1: Exp, e2: Exp): (res: (FS, Exp))
    ensures Grows(fs, res.0)
  {
    var (fs1, e1', o1) := Exp2RK(fs, e1);
    var (fs2, e2', o2) := Exp2RK(fs1, e2);
    var fs3 := FreeExp(FreeExp(fs2, e2'), e1');
    var swap := !cond && op != Eq;
    var i := if swap then CMP(op, true, o2, o1) else CMP(op, cond, o1, o2);
    var (fs4, list) := CondJump(fs3, i);
    (fs4, e1'.(kind := VJMP, info := list[0]))
  }

  function PrefixUn(ops: Ops, fs: FS, op: UnOp, e: Exp): (res: (FS, Exp))
    ensures Grows(fs, res.0)
  {
    if op == Minus && IsNumeral(e) then (fs, e.(nval := ops.neg(e.nval)))
    else var (fs1, e1) := Exp2AnyReg(fs, e); CodeUnary(fs1, op, e1)
  }

  function Infix(fs: FS, op: BinOp, e: Exp): (res: (FS, Exp))
    ensures Grows(fs, res.0)
  {
    match op
    case OprAnd => GoIfTrue(fs, e)
    case OprOr => GoIfFalse(fs, e)
    case OprArith(_) => if IsNumeral(e) then (fs, e) else var (fs1, e1, _) := Exp2RK(fs, e); (fs1, e1)
    case _ => var (fs1, e1, _) := Exp2RK(fs, e); (fs1, e1)
  }

  function Posfix(ops: Ops, fs: FS, op: BinOp, e1: Exp, e20: Exp): (res: (FS, Exp))
    ensures Grows(fs, res.0)
  {
    match op
    case OprAnd => var e2 := DischargeVars(e20); (Concat(fs, e2.f, e1.f), e2.(f := e2.f + e1.f))
    case OprOr => var e2 := DischargeVars(e20); (Concat(fs, e2.t, e1.t), e2.(t := e2.t + e1.t))
    case OprArith(a) => CodeArith(ops, fs, a, e1, e20)
    case OprCmp(c) => CodeComp(fs, c, true, e1, e20)
    case OprNe => CodeComp(fs, Eq, false, e1, e20)
    case OprGt => CodeComp(fs, Lt, false, e1, e20)
    case OprGe => CodeComp(fs, Le, false, e1, e20)
  }

  function Simple(v: Value, fs: FS): (res: (FS, Exp))
    ensures Grows(fs, res.0)
  {
    match v
    case Nil => (fs, Exp(VNIL, 0, 0, [], []))
    case Bool(b) => (fs, Exp(if b then VTRUE else VFALSE, 0, 0, [], []))
    case Num(n) => (fs, Exp(VKNUM, 0, n, [], []))
    case Str(_) => var (fs1, i) := AddK(fs, v); (fs1, Exp(VK, i, 0, [], []))
  }

  // The generator's calls in the order in which subexpr makes them.
  function Compile(ops: Ops, fs: FS, x: Expr): (res: (FS, Exp))
    ensures Grows(fs, res.0)
    decreases x
  {
    match x
    case Const(v) => Simple(v, fs)
    case Local(i) => (fs, Exp(VLOCAL, i, 0, [], []))
    case Paren(y) => var (fs1, e) := Compile(ops, fs, y); (fs1, DischargeVars(e))
    case Not(y) => var (fs1, e) := Compile(ops, fs, y); CodeNot(fs1, e)
    case Un(op, y) => var (fs1, e) := Compile(ops, fs, y); PrefixUn(ops, fs1, op, e)
    case Bin(op, a, b) =>
      var (fs1, e1) := Compile(ops, fs, a);
      var (fs2, e1') := Infix(fs1, op, e1);
      var (fs3, e2) := Compile(ops, fs2, b);
      Posfix(ops, fs3, op, e1', e2)
  }
}
