// What need not be computed at run time: constant expressions have no code, and the operands of an
// operator that are locals or constants need none of their own.
module LuaCodeShort {
  import opened Common
  import opened LuaMachine
  import opened LuaCodegen

  // The value of a constant expression: nil, booleans and numbers, 'not' of them, and arithmetic on
  // numbers but for a division or modulo by zero.
  function Constant(ops: Ops, x: Expr): Option<Value> {
    match x
    case Const(v) => if v.Str? then None else Some(v)
    case Local(_) => None
    case Paren(y) => Constant(ops, y)
    case Not(y) =>
      var v := Constant(ops, y);
      if v.None? then None else Some(Bool(v == Some(Nil) || v == Some(Bool(false))))
    case Un(op, y) =>
      var v := Constant(ops, y);
      if v.Some? && v.value.Num? && op == Minus then Some(Num(ops.neg(v.value.n))) else None
    case Bin(op, a, b) =>
      var v, w := Constant(ops, a), Constant(ops, b);
      if v.Some? && w.Some? && v.value.Num? && w.value.Num? && op.OprArith? && !(op.op in {Div, Mod} && ops.isZero(w.value.n))
      then Some(Num(ops.num(op.op, v.value.n, w.value.n)))
      else None
  }

  // The descriptor is this value, with nothing to wait for.
  predicate Stands(e: Exp, v: Value) {
    e.t == [] && e.f == [] &&
    match v
    case Nil => e.kind == VNIL
    case Bool(b) => e.kind == if b then VTRUE else VFALSE
    case Num(n) => e.kind == VKNUM && e.nval == n
    case Str(_) => false
  }

  // A constant expression is its value: no instruction, no constant, no register.
  lemma {:induction false} NoCode(ops: Ops, fs: FS, x: Expr, r: Regs)
    requires Constant(ops, x).Some?
    ensures Compile(ops, fs, x).0 == fs && Stands(Compile(ops, fs, x).1, Constant(ops, x).value)
    ensures Eval(ops, x, r) == Constant(ops, x)
  {
    match x
    case Const(_) =>
    case Paren(y) => NoCode(ops, fs, y, r);
    case Not(y) => NoCode(ops, fs, y, r);
    case Un(_, y) => NoCode(ops, fs, y, r);
    case Bin(_, a, b) =>
      NoCode(ops, fs, a, r);
      NoCode(ops, fs, b, r);
  }

  predicate Direct(x: Expr, n: nat) { x.Const? || (x.Local? && x.i < n <= 200) }

  // The operand of an instruction: the register of the local, or the index of the constant.
  predicate IsOperand(fs: FS, x: Expr, b: nat) {
    if x.Local? then b == x.i else x.Const? && 256 <= b < 512 && b - 256 < |fs.k| && fs.k[b - 256] == x.v
  }

  // The descriptor of a local or a constant, entered or not
  predicate Refers(fs: FS, e: Exp, x: Expr) {
    e.t == [] && e.f == [] && Direct(x, fs.nactvar) &&
    if e.kind == VK then x.Const? && e.info < |fs.k| && e.info <= 255 && fs.k[e.info] == x.v
    else if x.Local? then e.info == x.i && (e.kind == VLOCAL || e.kind == VNONRELOC)
    else |fs.k| <= 255 && x.Const? && Stands(e, x.v)
  }

  // At most one constant more, and nothing else
  ghost predicate Entered(fs: FS, fs': FS) { fs' == fs.(k := fs'.k) && fs.k <= fs'.k && |fs'.k| <= |fs.k| + 1 }

  // It may have to be entered yet.
  predicate Waits(e: Exp) { e.kind != VK && e.kind != VLOCAL && e.kind != VNONRELOC }

  lemma SimpleRefers(ops: Ops, fs: FS, x: Expr)
    requires Direct(x, fs.nactvar) && |fs.k| <= 255
    ensures var (fs', e) := Compile(ops, fs, x); Entered(fs, fs') && Refers(fs', e, x) && (Waits(e) ==> fs' == fs)
  {}

  lemma OperandOf(fs: FS, e: Exp, x: Expr)
    requires Refers(fs, e, x)
    ensures var (fs', e', rk) := Exp2RK(fs, e);
            Entered(fs, fs') && Refers(fs', e', x) && IsOperand(fs', x, rk) && (e'.kind == VK || e'.kind == VNONRELOC) &&
            (!Waits(e) ==> fs' == fs) && FreeExp(fs', e') == fs'
  {}

  lemma StillRefers(fs: FS, fs': FS, e: Exp, x: Expr)
    requires Refers(fs, e, x) && Entered(fs, fs') && (Waits(e) ==> |fs'.k| <= 255)
    ensures Refers(fs', e, x)
  {}

  lemma Left(ops: Ops, fs: FS, op: ArithOp, x: Expr)
    requires Direct(x, fs.nactvar) && |fs.k| <= 254
    ensures var (fs1, e) := Compile(ops, fs, x); var (fs2, e') := Infix(fs1, OprArith(op), e);
            Entered(fs, fs2) && Refers(fs2, e', x) && (Waits(e') ==> fs2 == fs && IsNumeral(e'))
  {
    hide Exp2RK, FreeExp;
    var (fs1, e) := Compile(ops, fs, x);
    SimpleRefers(ops, fs, x);
    OperandOf(fs1, e, x);
  }

  lemma Both(ops: Ops, fs: FS, op: ArithOp, e1: Exp, e2: Exp, x: Expr, y: Expr) returns (b: nat, c: nat)
    requires Refers(fs, e1, x) && Refers(fs, e2, y) && !Folds(ops, op, e1, e2)
    requires Waits(e1) ==> |fs.k| + (if Waits(e2) then 1 else 0) <= 255
    ensures var (fs', e) := CodeArith(ops, fs, op, e1, e2);
            |fs'.code| == |fs.code| + 1 && fs'.code[|fs.code|] == ARITH(op, 0, b, c) && e.kind == VRELOCABLE && e.info == |fs.code| &&
            IsOperand(fs', x, b) && IsOperand(fs', y, c) && fs'.freereg == fs.freereg &&
            |fs'.k| <= |fs.k| + (if Waits(e1) then 1 else 0) + (if Waits(e2) then 1 else 0)
  {
    hide Exp2RK, Refers, FreeExp, DischargeJpc, IsOperand;
    var (fs1, e2', o2) := Exp2RK(fs, e2);
    OperandOf(fs, e2, y);
    StillRefers(fs, fs1, e1, x);
    var (fs2, e1', o1) := Exp2RK(fs1, e1);
    OperandOf(fs1, e1, x);
    StillRefers(fs1, fs2, e2', y);
    NotFreed(fs2, e2', y);
    b, c := o1, o2;
    SameLength(fs2);
    SameOperand(fs1, fs2, y, c);
    SameOperand(fs2, Code(fs2, ARITH(op, 0, b, c)), x, b);
    SameOperand(fs2, Code(fs2, ARITH(op, 0, b, c)), y, c);
  }

  lemma NotFreed(fs: FS, e: Exp, x: Expr)
    requires Refers(fs, e, x) && !Waits(e)
    ensures FreeExp(fs, e) == fs
  {}

  lemma SameOperand(fs: FS, fs': FS, x: Expr, b: nat)
    requires IsOperand(fs, x, b) && fs.k <= fs'.k
    ensures IsOperand(fs', x, b)
  {}

  lemma SameLength(fs: FS)
    ensures var fs' := DischargeJpc(fs); |fs'.code| == |fs.code| && fs'.k == fs.k && fs'.freereg == fs.freereg
  {}

  // Arithmetic on locals and constants is one instruction that names them, as long as the constants
  // have indices up to 255.
  lemma OneInstruction(ops: Ops, fs: FS, op: ArithOp, x: Expr, y: Expr) returns (b: nat, c: nat)
    requires Direct(x, fs.nactvar) && Direct(y, fs.nactvar) && |fs.k| <= 254
    requires Constant(ops, Bin(OprArith(op), x, y)).None?
    ensures var (fs', e) := Compile(ops, fs, Bin(OprArith(op), x, y));
            |fs'.code| == |fs.code| + 1 && fs'.code[|fs.code|] == ARITH(op, 0, b, c) && e.kind == VRELOCABLE && e.info == |fs.code| &&
            IsOperand(fs', x, b) && IsOperand(fs', y, c) && fs'.freereg == fs.freereg && |fs'.k| <= |fs.k| + 2
  {
    hide Infix, CodeArith, Simple, IsOperand, Exp2RK;
    var (fs1, e) := Compile(ops, fs, x);
    var (fs2, e1) := Infix(fs1, OprArith(op), e);
    Left(ops, fs, op, x);
    var (fs3, e2) := Compile(ops, fs2, y);
    SimpleRefers(ops, fs2, y);
    StillRefers(fs2, fs3, e1, x);
    b, c := Both(ops, fs3, op, e1, e2, x, y);
  }

  // A number or string is loaded by one instruction, as long as its index is at most 262143.
  lemma OneLoad(ops: Ops, fs: FS, v: Value)
    requires (v.Num? || v.Str?) && AddK(fs, v).1 <= 262143
    ensures var (fs1, e) := Compile(ops, fs, Const(v)); var fs' := Exp2NextReg(fs1, e).0;
            |fs'.code| == |fs.code| + 1 && fs'.code[|fs.code|] == LOADK(fs.freereg, AddK(fs, v).1) &&
            AddK(fs, v).1 < |fs'.k| && fs'.k[AddK(fs, v).1] == v
  {
    hide Exp2NextReg;
    LoadsOne(fs, v);
  }

  lemma LoadsOne(fs: FS, v: Value)
    requires (v.Num? || v.Str?) && AddK(fs, v).1 <= 262143
    ensures var (fs1, e) := Simple(v, fs); var fs' := Exp2NextReg(fs1, e).0;
            |fs'.code| == |fs.code| + 1 && fs'.code[|fs.code|] == LOADK(fs.freereg, AddK(fs, v).1) &&
            AddK(fs, v).1 < |fs'.k| && fs'.k[AddK(fs, v).1] == v
  {
    hide DischargeJpc, CloseJumps, LoadNils;
    SameLength(ReserveRegs(AddK(fs, v).0, 1));
    if v.Num? { SameLength(AddK(ReserveRegs(fs, 1), v).0); }
  }
}
