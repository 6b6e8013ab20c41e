// Expressions with their direct meaning, the instructions that the code generator emits for
// them, and runs of possibly unfinished code (lopcodes.h, lvm.c).
module LuaMachine {
  import opened Common

  // ----- values and the operations a metamethod may take over -----

  // Num holds the identity of a lua_Number: what the operations compute on it is a parameter.
  datatype Value = Nil | Bool(b: bool) | Num(n: int) | Str(id: int)

  datatype ArithOp = Add | Sub | Mul | Div | Mod | Pow
  datatype UnOp = Minus | Len
  datatype CmpOp = Eq | Lt | Le

  // Arithmetic on numbers is total; everything that may call a metamethod or raise an error
  // yields an option.
  datatype Ops = Ops(num: (ArithOp, int, int) -> int, neg: int -> int, isZero: int -> bool,
                     meta: (ArithOp, Value, Value) -> Option<Value>, unary: (UnOp, Value) -> Option<Value>,
                     cmp: (CmpOp, Value, Value) -> Option<bool>)

  predicate IsFalse(v: Value) { v == Nil || v == Bool(false) }

  function Arith(ops: Ops, op: ArithOp, v: Value, w: Value): Option<Value> {
    if v.Num? && w.Num? then Some(Num(ops.num(op, v.n, w.n))) else ops.meta(op, v, w)
  }

  function Unary(ops: Ops, op: UnOp, v: Value): Option<Value> {
    if op == Minus && v.Num? then Some(Num(ops.neg(v.n))) else ops.unary(op, v)
  }

  // ----- registers -----

  type Regs = map<nat, Value>

  function Get(r: Regs, i: nat): Value { if i in r then r[i] else Nil }

  ghost predicate Agree(r: Regs, r': Regs, below: nat) {
    forall i: nat :: i < below ==> Get(r, i) == Get(r', i)
  }

  // ----- expressions -----

  datatype BinOp = OprArith(op: ArithOp) | OprCmp(cmp: CmpOp) | OprNe | OprGt | OprGe | OprAnd | OprOr

  datatype Expr =
    | Const(v: Value)
    | Local(i: nat)
    | Paren(e: Expr)
    | Not(e: Expr)
    | Un(uop: UnOp, e: Expr)
    | Bin(op: BinOp, l: Expr, r: Expr)

  // The value of an expression, None if evaluating it raises an error.  'a > b' is 'b < a' and
  // 'a >= b' is 'b <= a' (Lua 5.2 Reference Manual, section 3.4.3).
  function Eval(ops: Ops, x: Expr, r: Regs): Option<Value> {
    match x
    case Const(v) => Some(v)
    case Local(i) => Some(Get(r, i))
    case Paren(e) => Eval(ops, e, r)
    case Not(e) =>
      var v := Eval(ops, e, r);
      if v.None? then None else Some(Bool(IsFalse(v.value)))
    case Un(op, e) =>
      var v := Eval(ops, e, r);
      if v.None? then None else Unary(ops, op, v.value)
    case Bin(op, a, b) =>
      var v := Eval(ops, a, r);
      if v.None? then None
      else if op.OprAnd? && IsFalse(v.value) then v
      else if op.OprOr? && !IsFalse(v.value) then v
      else
        var w := Eval(ops, b, r);
        if w.None? then None else Combine(ops, op, v.value, w.value)
  }

  function BoolOf(o: Option<bool>): Option<Value> { if o.None? then None else Some(Bool(o.value)) }

  function Combine(ops: Ops, op: BinOp, v: Value, w: Value): Option<Value> {
    match op
    case OprArith(a) => Arith(ops, a, v, w)
    case OprCmp(c) => BoolOf(ops.cmp(c, v, w))
    case OprNe => var q := ops.cmp(Eq, v, w); if q.None? then None else Some(Bool(!q.value))
    case OprGt => BoolOf(ops.cmp(Lt, w, v))
    case OprGe => BoolOf(ops.cmp(Le, w, v))
    case OprAnd => Some(w)
    case OprOr => Some(w)
  }

  // Locals used are active.
  predicate Scoped(x: Expr, nactvar: nat) {
    match x
    case Const(_) => true
    case Local(i) => i < nactvar
    case Paren(e) => Scoped(e, nactvar)
    case Not(e) => Scoped(e, nactvar)
    case Un(_, e) => Scoped(e, nactvar)
    case Bin(_, a, b) => Scoped(a, nactvar) && Scoped(b, nactvar)
  }

  lemma {:induction false} EvalReadsLocals(ops: Ops, x: Expr, r: Regs, r': Regs, nactvar: nat)
    requires Scoped(x, nactvar) && Agree(r, r', nactvar)
    ensures Eval(ops, x, r) == Eval(ops, x, r')
  {
    match x
    case Const(_) =>
    case Local(_) =>
    case Paren(e) => EvalReadsLocals(ops, e, r, r', nactvar);
    case Not(e) => EvalReadsLocals(ops, e, r, r', nactvar);
    case Un(_, e) => EvalReadsLocals(ops, e, r, r', nactvar);
    case Bin(_, a, b) =>
      EvalReadsLocals(ops, a, r, r', nactvar);
      EvalReadsLocals(ops, b, r, r', nactvar);
  }

  // ----- instructions -----

  const BITRK: nat := 256
  const MAXINDEXRK: nat := 255

  predicate ISK(x: nat) { x >= BITRK }

  datatype Instr =
    | MOVE(a: nat, b: nat)
    | LOADK(a: nat, bx: nat)
    | LOADKX(a: nat)
    | EXTRAARG(ax: nat)
    | LOADBOOL(a: nat, val: bool, skip: bool)
    | LOADNIL(a: nat, n: nat)
    | ARITH(op: ArithOp, a: nat, rb: nat, rc: nat)
    | UNARY(uop: UnOp, a: nat, b: nat)
    | NOT(a: nat, b: nat)
    | JMP(sbx: int)
    | CMP(cmp: CmpOp, cond: bool, rb: nat, rc: nat)
    | TEST(a: nat, c: bool)
    | TESTSET(a: nat, b: nat, c: bool)

  // testTMode: the next instruction is the jump to take
  predicate TMode(i: Instr) { i.CMP? || i.TEST? || i.TESTSET? }

  // The constants and operations a run uses.
  datatype Env = Env(ops: Ops, k: seq<Value>)

  function KAt(env: Env, i: nat): Value { if i < |env.k| then env.k[i] else Nil }

  function RK(env: Env, r: Regs, x: nat): Value { if ISK(x) then KAt(env, x - BITRK) else Get(r, x) }

  function SetNils(r: Regs, a: nat, n: nat): (r': Regs)
    ensures forall i: nat :: Get(r', i) == if a <= i <= a + n then Nil else Get(r, i)
    decreases n
  {
    if n == 0 then r[a := Nil] else SetNils(r[a := Nil], a + 1, n - 1)
  }

  // The value an instruction puts in its register A (those that only do that and fall through).
  function ValueOf(env: Env, i: Instr, r: Regs): Option<Value> {
    match i
    case MOVE(_, b) => Some(Get(r, b))
    case LOADK(_, bx) => Some(KAt(env, bx))
    case LOADBOOL(_, v, false) => Some(Bool(v))
    case ARITH(op, _, b, c) => Arith(env.ops, op, RK(env, r, b), RK(env, r, c))
    case UNARY(op, _, b) => Unary(env.ops, op, Get(r, b))
    case NOT(_, b) => Some(Bool(IsFalse(Get(r, b))))
    case _ => None
  }

  // Does a test instruction take the jump that follows it?
  function Takes(env: Env, i: Instr, r: Regs): Option<bool>
    requires TMode(i)
  {
    match i
    case CMP(op, cond, b, c) =>
      var q := env.ops.cmp(op, RK(env, r, b), RK(env, r, c));
      if q.None? then None else Some(q.value == cond)
    case TEST(a, c) => Some(!(if c then IsFalse(Get(r, a)) else !IsFalse(Get(r, a))))
    case TESTSET(_, b, c) => Some(!(if c then IsFalse(Get(r, b)) else !IsFalse(Get(r, b))))
  }

  // TESTSET copies its register when the jump is taken.
  function TestEffect(i: Instr, r: Regs): Regs {
    if i.TESTSET? then r[i.a := Get(r, i.b)] else r
  }

  // ----- runs of unfinished code -----

  // At: the run arrived at an address, not through the jump of a test.  Taken: a test chose its
  // jump at j, which is one of those whose target is not known yet.
  datatype Outcome = At(pc: nat, regs: Regs) | Taken(j: nat, regs: Regs) | Err | Stuck

  // Runs from pc until 'lim' or a stopped jump.  Only forward jumps are followed.
  function Run(env: Env, code: seq<Instr>, stops: set<nat>, lim: nat, pc: nat, r: Regs): (o: Outcome)
    requires lim <= |code|
    ensures o.Taken? ==> 0 < o.j <= lim && o.j in stops
    decreases lim - pc, 1
  {
    if pc >= lim || pc in stops then At(pc, r)
    else
      var i := code[pc];
      match i
      case JMP(s) => if s < 0 then Stuck else Run(env, code, stops, lim, pc + 1 + s, r)
      case LOADNIL(a, n) => Run(env, code, stops, lim, pc + 1, SetNils(r, a, n))
      case LOADBOOL(a, v, true) => Run(env, code, stops, lim, pc + 2, r[a := Bool(v)])
      case LOADKX(a) =>
        if pc + 1 < lim && pc + 1 !in stops && code[pc + 1].EXTRAARG?
        then Run(env, code, stops, lim, pc + 2, r[a := KAt(env, code[pc + 1].ax)]) else Stuck
      case EXTRAARG(_) => Stuck
      case CMP(_, _, _, _) => RunTest(env, code, stops, lim, pc, r)
      case TEST(_, _) => RunTest(env, code, stops, lim, pc, r)
      case TESTSET(_, _, _) => RunTest(env, code, stops, lim, pc, r)
      case _ =>
        var v := ValueOf(env, i, r);
        if v.None? then Err else Run(env, code, stops, lim, pc + 1, r[i.a := v.value])
  }

  function RunTest(env: Env, code: seq<Instr>, stops: set<nat>, lim: nat, pc: nat, r: Regs): (o: Outcome)
    requires lim <= |code| && pc < lim && TMode(code[pc])
    ensures o.Taken? ==> 0 < o.j <= lim && o.j in stops
    decreases lim - pc, 0
  {
    var t := Takes(env, code[pc], r);
    if t.None? then Err
    else if !t.value then Run(env, code, stops, lim, pc + 2, r)
    else TakeJump(env, code, stops, lim, pc + 1, r)
  }

  // The jump at j, chosen by the test before it.
  function TakeJump(env: Env, code: seq<Instr>, stops: set<nat>, lim: nat, j: nat, r: Regs): (o: Outcome)
    requires lim <= |code| && 0 < j <= lim
    ensures o.Taken? ==> 0 < o.j <= lim && o.j in stops
    decreases lim - j, 2
  {
    if j in stops then Taken(j, r)
    else if j < lim && code[j].JMP? && code[j].sbx >= 0
    then Run(env, code, stops, lim, j + 1 + code[j].sbx, TestEffect(code[j - 1], r))
    else Stuck
  }

  function Resume(env: Env, code: seq<Instr>, stops: set<nat>, lim: nat, o: Outcome): Outcome
    requires lim <= |code|
  {
    match o
    case At(pc, r) => Run(env, code, stops, lim, pc, r)
    case Taken(j, r) => if 0 < j <= lim then TakeJump(env, code, stops, lim, j, r) else Stuck
    case _ => o
  }

  // A run to a later limit, with no new stops below the old one, continues the shorter run.
  lemma {:induction false} Continue(env: Env, code: seq<Instr>, stops: set<nat>, lim: nat, stops': set<nat>, lim': nat,
                                    pc: nat, r: Regs)
    requires lim <= lim' <= |code| && forall j :: j in stops' && j < lim ==> j in stops
    requires !Run(env, code, stops, lim, pc, r).Stuck?
    ensures Run(env, code, stops', lim', pc, r) == Resume(env, code, stops', lim', Run(env, code, stops, lim, pc, r))
    decreases lim - pc
  {
    if pc >= lim || pc in stops {
    } else {
      var i := code[pc];
      match i
      case JMP(s) => Continue(env, code, stops, lim, stops', lim', pc + 1 + s, r);
      case LOADNIL(a, n) => Continue(env, code, stops, lim, stops', lim', pc + 1, SetNils(r, a, n));
      case LOADBOOL(a, v, true) => Continue(env, code, stops, lim, stops', lim', pc + 2, r[a := Bool(v)]);
      case LOADKX(a) => Continue(env, code, stops, lim, stops', lim', pc + 2, r[a := KAt(env, code[pc + 1].ax)]);
      case EXTRAARG(_) =>
      case CMP(_, _, _, _) => ContinueTest(env, code, stops, lim, stops', lim', pc, r);
      case TEST(_, _) => ContinueTest(env, code, stops, lim, stops', lim', pc, r);
      case TESTSET(_, _, _) => ContinueTest(env, code, stops, lim, stops', lim', pc, r);
      case _ =>
        var v := ValueOf(env, i, r);
        if v.Some? { Continue(env, code, stops, lim, stops', lim', pc + 1, r[i.a := v.value]); }
    }
  }

  lemma {:induction false} ContinueTest(env: Env, code: seq<Instr>, stops: set<nat>, lim: nat, stops': set<nat>,
                                        lim': nat, pc: nat, r: Regs)
    requires lim <= lim' <= |code| && pc < lim && TMode(code[pc]) && forall j :: j in stops' && j < lim ==> j in stops
    requires !RunTest(env, code, stops, lim, pc, r).Stuck?
    ensures RunTest(env, code, stops', lim', pc, r) == Resume(env, code, stops', lim', RunTest(env, code, stops, lim, pc, r))
    decreases lim - pc, 0
  {
    var t := Takes(env, code[pc], r);
    if t.Some? {
      if !t.value {
        Continue(env, code, stops, lim, stops', lim', pc + 2, r);
      } else if pc + 1 !in stops {
        Continue(env, code, stops, lim, stops', lim', pc + 2 + code[pc + 1].sbx, TestEffect(code[pc], r));
      }
    }
  }

  // Code that differs only in stopped jumps, and in where their tests would put a value.
  ghost predicate AlikeAt(code: seq<Instr>, code': seq<Instr>, stops: set<nat>, i: nat)
    requires i < |code| && i < |code'|
  {
    i in stops || code'[i] == code[i] ||
    (i + 1 in stops && code[i].TESTSET? &&
     (code'[i] == TEST(code[i].b, code[i].c) ||
      (code'[i].TESTSET? && code'[i].b == code[i].b && code'[i].c == code[i].c)))
  }

  ghost predicate Alike(code: seq<Instr>, code': seq<Instr>, stops: set<nat>, from: nat, lim: nat) {
    lim <= |code| && lim <= |code'| && forall i :: from <= i < lim ==> AlikeAt(code, code', stops, i)
  }

  lemma {:induction false} AlikeRuns(env: Env, code: seq<Instr>, code': seq<Instr>, stops: set<nat>, lim: nat, pc: nat,
                                     r: Regs)
    requires Alike(code, code', stops, pc, lim)
    requires !Run(env, code, stops, lim, pc, r).Stuck?
    ensures Run(env, code', stops, lim, pc, r) == Run(env, code, stops, lim, pc, r)
    decreases lim - pc
  {
    hide ValueOf, SetNils, KAt, RunTest;
    if pc >= lim || pc in stops {
    } else {
      var i := code[pc];
      assert AlikeAt(code, code', stops, pc);
      match i
      case JMP(s) => AlikeRuns(env, code, code', stops, lim, pc + 1 + s, r);
      case LOADNIL(a, n) => AlikeRuns(env, code, code', stops, lim, pc + 1, SetNils(r, a, n));
      case LOADBOOL(a, v, true) => AlikeRuns(env, code, code', stops, lim, pc + 2, r[a := Bool(v)]);
      case LOADKX(a) =>
        assert AlikeAt(code, code', stops, pc + 1);
        AlikeRuns(env, code, code', stops, lim, pc + 2, r[a := KAt(env, code[pc + 1].ax)]);
      case EXTRAARG(_) =>
      case CMP(_, _, _, _) => AlikeTests(env, code, code', stops, lim, pc, r);
      case TEST(_, _) => AlikeTests(env, code, code', stops, lim, pc, r);
      case TESTSET(_, _, _) => AlikeTests(env, code, code', stops, lim, pc, r);
      case _ =>
        var v := ValueOf(env, i, r);
        if v.Some? { AlikeRuns(env, code, code', stops, lim, pc + 1, r[i.a := v.value]); }
    }
  }

  lemma {:induction false} AlikeTests(env: Env, code: seq<Instr>, code': seq<Instr>, stops: set<nat>, lim: nat, pc: nat,
                                      r: Regs)
    requires Alike(code, code', stops, pc, lim) && pc < lim && pc !in stops && TMode(code[pc])
    requires !RunTest(env, code, stops, lim, pc, r).Stuck?
    ensures TMode(code'[pc]) && RunTest(env, code', stops, lim, pc, r) == RunTest(env, code, stops, lim, pc, r)
    decreases lim - pc, 0
  {
    var t := Takes(env, code[pc], r);
    assert AlikeAt(code, code', stops, pc);
    if t.Some? {
      if !t.value {
        AlikeRuns(env, code, code', stops, lim, pc + 2, r);
      } else if pc + 1 !in stops {
        assert AlikeAt(code, code', stops, pc + 1);
        AlikeRuns(env, code, code', stops, lim, pc + 2 + code[pc + 1].sbx, TestEffect(code[pc], r));
      }
    }
  }
}
