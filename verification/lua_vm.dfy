// The interpreter loop (luaV_execute in lvm.c) on the instructions of expressions, and the whole
// way from tokens to a value.
module LuaVM {
  import opened Common
  import opened LuaMachine
  import G = LuaCodegen
  import opened LuaCodegenTypes = LuaCodegen
  import opened LuaCodeMeaning
  import opened LuaCodeRuns
  import C = LuaCodeCorrect
  import opened LuaJumpLists
  import opened LuaJumpTidy
  import P = LuaParse
  import opened LuaFuncState
  import O = LuaFuncOps
  import E = LuaFuncExprs
  import S = LuaSubexpr

  // Halted: the end of the code; Raised: an error; Broken: code the generator never makes.
  datatype Status = Halted | Raised | Broken

  lemma RunOfTest(env: Env, code: seq<Instr>, pc: nat, r: Regs)
    requires pc < |code| && TMode(code[pc])
    ensures var t := Takes(env, code[pc], r); var j := pc + 1;
            Run(env, code, {}, |code|, pc, r) ==
            if t.None? then Err
            else if !t.value then Run(env, code, {}, |code|, pc + 2, r)
            else if j < |code| && code[j].JMP? && code[j].sbx >= 0
            then Run(env, code, {}, |code|, j + 1 + code[j].sbx, TestEffect(code[pc], r)) else Stuck
  {
    assert Run(env, code, {}, |code|, pc, r) == RunTest(env, code, {}, |code|, pc, r);
    var t := Takes(env, code[pc], r);
    if t == Some(true) {
      assert RunTest(env, code, {}, |code|, pc, r) == TakeJump(env, code, {}, |code|, pc + 1, r);
      assert TakeJump(env, code, {}, |code|, pc + 1, r) ==
             if pc + 1 < |code| && code[pc + 1].JMP? && code[pc + 1].sbx >= 0
             then Run(env, code, {}, |code|, pc + 2 + code[pc + 1].sbx, TestEffect(code[pc], r)) else Stuck;
    }
  }

  lemma RunEnds(env: Env, code: seq<Instr>, pc: nat, r: Regs)
    requires pc >= |code|
    ensures Run(env, code, {}, |code|, pc, r) == At(pc, r)
  {}

  // One instruction that is neither a test nor a jump.
  lemma RunOfPlain(env: Env, code: seq<Instr>, pc: nat, r: Regs)
    requires pc < |code| && !TMode(code[pc])
    ensures var i := code[pc]; var o := Run(env, code, {}, |code|, pc, r);
            (i.JMP? ==> o == if i.sbx < 0 then Stuck else Run(env, code, {}, |code|, pc + 1 + i.sbx, r)) &&
            (i.LOADNIL? ==> o == Run(env, code, {}, |code|, pc + 1, SetNils(r, i.a, i.n))) &&
            (i.LOADKX? ==> o == if pc + 1 < |code| && code[pc + 1].EXTRAARG?
                                then Run(env, code, {}, |code|, pc + 2, r[i.a := KAt(env, code[pc + 1].ax)]) else Stuck) &&
            (i.EXTRAARG? ==> o == Stuck) &&
            (i.LOADBOOL? && i.skip ==> o == Run(env, code, {}, |code|, pc + 2, r[i.a := Bool(i.val)])) &&
            (Computes(i) ==> var v := ValueOf(env, i, r);
                             o == if v.None? then Err else Run(env, code, {}, |code|, pc + 1, r[i.a := v.value]))
  {}

  // Instructions that do nothing but put a value into their register A.
  predicate Computes(i: Instr) {
    i.MOVE? || i.LOADK? || i.ARITH? || i.UNARY? || i.NOT? || (i.LOADBOOL? && !i.skip)
  }

  // A running function: its registers and its program counter.
  class CallInfo {
    var regs: Regs
    var savedpc: nat

    constructor (regs: Regs, pc: nat)
      ensures this.regs == regs && savedpc == pc
    {
      this.regs, this.savedpc := regs, pc;
    }

    method Set(a: nat, v: Value)
      modifies this`regs
      ensures regs == old(regs)[a := v]
    {
      regs := regs[a := v];
    }

    // LOADNIL: 'do { setnilvalue(ra++); } while (b--)'
    method LoadNils(a: nat, n: nat)
      modifies this`regs
      ensures regs == SetNils(old(regs), a, n)
    {
      var ra: nat, b: nat := a, n;
      regs := regs[ra := Nil];
      assert regs[ra := Nil] == regs;
      while b > 0
        invariant b <= n && ra == a + (n - b) && regs[ra := Nil] == regs
        invariant SetNils(regs, ra, b) == SetNils(old(regs), a, n)
        decreases b
      {
        ghost var was := regs;
        b := b - 1;
        ra := ra + 1;
        regs := regs[ra := Nil];
        assert regs[ra := Nil] == regs;
      }
    }

    // An instruction that computes a value into its register A.
    method Compute(env: Env, i: Instr) returns (raised: bool)
      requires Computes(i)
      modifies this`regs
      ensures raised == ValueOf(env, i, old(regs)).None?
      ensures regs == if raised then old(regs) else old(regs)[i.a := ValueOf(env, i, old(regs)).value]
    {
      raised := false;
      match i {
        case MOVE(a, b) => Set(a, Get(regs, b));
        case LOADK(a, bx) => Set(a, KAt(env, bx));
        case LOADBOOL(a, v, _) => Set(a, Bool(v));
        case NOT(a, b) => Set(a, Bool(IsFalse(Get(regs, b))));
        case ARITH(op, a, b, c) =>
          var v, w := RK(env, regs, b), RK(env, regs, c);
          if v.Num? && w.Num? {
            Set(a, Num(env.ops.num(op, v.n, w.n)));
          } else {
            var res := env.ops.meta(op, v, w);
            if res.None? { return true; }
            Set(a, res.value);
          }
        case UNARY(op, a, b) =>
          var v := Get(regs, b);
          if op == Minus && v.Num? {
            Set(a, Num(env.ops.neg(v.n)));
          } else {
            var res := env.ops.unary(op, v);
            if res.None? { return true; }
            Set(a, res.value);
          }
        case _ =>
      }
    }

    // donextjump, after a test that was taken
    method NextJump(code: seq<Instr>) returns (jumped: bool)
      requires savedpc <= |code|
      modifies this`savedpc
      ensures var j := old(savedpc);
              jumped == (j < |code| && code[j].JMP? && code[j].sbx >= 0) &&
              (jumped ==> savedpc == j + 1 + code[j].sbx) && (!jumped ==> savedpc == j)
    {
      if savedpc >= |code| || !code[savedpc].JMP? || code[savedpc].sbx < 0 { return false; }
      savedpc := savedpc + 1 + code[savedpc].sbx;
      jumped := true;
    }

    // CMP, TEST and TESTSET with the jump that follows; savedpc is already behind the test.
    method Test(env: Env, code: seq<Instr>) returns (status: Status)
      requires 0 < savedpc <= |code| && TMode(code[savedpc - 1])
      modifies this
      ensures var pc := old(savedpc) - 1; var r := old(regs); var t := Takes(env, code[pc], r);
              match status
              case Raised => t.None?
              case Halted =>
                t.Some? &&
                if !t.value then savedpc == pc + 2 && regs == r
                else pc + 1 < |code| && code[pc + 1].JMP? && code[pc + 1].sbx >= 0 &&
                     savedpc == pc + 2 + code[pc + 1].sbx && regs == TestEffect(code[pc], r)
              case Broken => t == Some(true) && !(pc + 1 < |code| && code[pc + 1].JMP? && code[pc + 1].sbx >= 0)
    {
      var i := code[savedpc - 1];
      var taken;
      match i {
        case CMP(op, cond, b, c) =>
          var q := env.ops.cmp(op, RK(env, regs, b), RK(env, regs, c));
          if q.None? { return Raised; }
          taken := q.value == cond;
        case TEST(a, c) => taken := !(if c then IsFalse(Get(regs, a)) else !IsFalse(Get(regs, a)));
        case TESTSET(a, b, c) =>
          taken := !(if c then IsFalse(Get(regs, b)) else !IsFalse(Get(regs, b)));
          if taken { Set(a, Get(regs, b)); }
        case _ =>
      }
      if !taken { savedpc := savedpc + 1; return Halted; }
      var jumped := NextJump(code);
      status := if jumped then Halted else Broken;
    }

    // luaV_execute: the loop does what Run says.
    method Execute(env: Env, code: seq<Instr>) returns (status: Status)
      modifies this
      ensures var o := Run(env, code, {}, |code|, old(savedpc), old(regs));
              match status
              case Halted => o == At(savedpc, regs) && savedpc >= |code|
              case Raised => o == Err
              case Broken => o == Stuck
    {
      hide Run, ValueOf, SetNils, Takes;
      ghost var o := Run(env, code, {}, |code|, savedpc, regs);
      while savedpc < |code|
        invariant Run(env, code, {}, |code|, savedpc, regs) == o
        decreases |code| - savedpc
      {
        var i := code[savedpc];
        ghost var pc := savedpc;
        savedpc := savedpc + 1;
        if TMode(i) { RunOfTest(env, code, pc, regs); } else { RunOfPlain(env, code, pc, regs); }
        if i.JMP? {
          if i.sbx < 0 { return Broken; }
          savedpc := savedpc + i.sbx;
        } else if i.LOADNIL? {
          LoadNils(i.a, i.n);
        } else if i.LOADKX? {
          if savedpc >= |code| || !code[savedpc].EXTRAARG? { return Broken; }
          Set(i.a, KAt(env, code[savedpc].ax));
          savedpc := savedpc + 1;
        } else if i.EXTRAARG? {
          return Broken;
        } else if TMode(i) {
          var t := Test(env, code);
          if t != Halted { return t; }
        } else if i.LOADBOOL? && i.skip {
          Set(i.a, Bool(i.val));
          savedpc := savedpc + 1;
        } else {
          var raised := Compute(env, i);
          if raised { return Raised; }
        }
      }
      RunEnds(env, code, savedpc, regs);
      status := Halted;
    }
  }

  // ----- from tokens to a value -----

  // 'expr' followed by luaK_exp2nextreg, as for an element of an expression list.
  method ExprToNextReg(ls: S.LexState, fs: FuncState, e: ExpDesc, ops: Ops, ghost b: nat, ghost base: nat)
    requires S.Begun(ls, fs, b, {}, base)
    modifies ls, fs, e
    ensures var p := P.Subexpr(ls.toks, old(ls.pos), 0, old(ls.Room()));
            ((ls.ok && fs.ok) <==> (p.Some? && C.ToNextReg(ops, old(fs.Model()), p.value.0).0.ok)) &&
            (ls.ok && fs.ok ==>
               ls.pos == p.value.1 && fs.Valid() &&
               (fs.Model(), e.Model()) == C.ToNextReg(ops, old(fs.Model()), p.value.0) &&
               Scoped(p.value.0, old(fs.nactvar)))
  {
    hide Step, S.Begins, S.LocalsActive, G.Compile, G.Exp2NextReg, Tidy, Linked, Distinct, Scoped;
    ghost var m, start, room := fs.Model(), ls.pos, ls.Room();
    S.Subexpr(ls, fs, e, 0, ops, b, {}, base);
    ghost var p := P.Subexpr(ls.toks, start, 0, room);
    if p.Some? { NextRegFits(ops, m, p.value.0); }
    if !ls.ok || !fs.ok { return; }
    O.StepTidy(m, fs.Model(), e.Model(), b, {}, base);
    assert C.ToNextReg(ops, m, p.value.0) == G.Exp2NextReg(fs.Model(), e.Model());
    O.Exp2NextReg(fs, e, b, {}, base);
  }

  lemma NextRegFits(ops: Ops, m: FS, x: Expr)
    ensures C.ToNextReg(ops, m, x).0.ok ==> G.Compile(ops, m, x).0.ok
  {}

  // Reads an expression, generates its code after what is there, and runs that code: the result
  // is the value that the expression tree has in the registers at the start, or an error where it
  // has none, and no register below the new one changes.
  method Evaluate(ls: S.LexState, fs: FuncState, e: ExpDesc, ops: Ops, ci: CallInfo) returns (status: Status)
    requires S.Begun(ls, fs, |fs.code|, {}, fs.freereg)
    requires fs.jpc == NO_JUMP && fs.lasttarget == |fs.code| && ci.savedpc == |fs.code|
    modifies ls, fs, e, ci
    ensures var p := P.Subexpr(ls.toks, old(ls.pos), 0, old(ls.Room()));
            ((ls.ok && fs.ok) <==> (p.Some? && C.Finished(C.ToNextReg(ops, old(fs.Model()), p.value.0).0).ok)) &&
            (ls.ok && fs.ok ==>
               match Eval(ops, p.value.0, old(ci.regs))
               case None => status == Raised
               case Some(v) =>
                 status == Halted && Get(ci.regs, old(fs.freereg)) == v &&
                 forall i: nat :: i < old(fs.freereg) ==> Get(ci.regs, i) == Get(old(ci.regs), i))
  {
    hide Step, S.LocalsActive, Shaped, Linked, Distinct, Scoped, Run, Eval, C.Reaches, C.ToNextReg, G.DischargeJpc;
    ghost var m, r, base, p := fs.Model(), ci.regs, fs.freereg, P.Subexpr(ls.toks, ls.pos, 0, ls.Room());
    StartsHere(m, ops, r);
    ExprToNextReg(ls, fs, e, ops, |fs.code|, fs.freereg);
    if p.Some? { FinishedFits(C.ToNextReg(ops, m, p.value.0).0); }
    if !ls.ok || !fs.ok { return Broken; }
    var env := Env(ops, fs.k);
    C.NextRegCorrect(env, m, p.value.0, |m.code|, r, r);
    fs.DischargeJpc();
    if !fs.ok { return Broken; }
    status := ci.Execute(env, fs.code);
  }

  // The last pending jumps may still be too long.
  lemma FinishedFits(m: FS)
    ensures C.Finished(m).ok ==> m.ok
  {}

  lemma StartsHere(m: FS, ops: Ops, r: Regs)
    requires S.Begins(m, |m.code|, {}, m.freereg) && Head(m.jpc) == NO_JUMP && m.lasttarget == |m.code|
    ensures forall k: seq<Value> :: C.Reaches(Env(ops, k), m, |m.code|, r, r)
  {
    assert m.jpc == [];
    forall k: seq<Value> ensures C.Reaches(Env(ops, k), m, |m.code|, r, r) { C.StatementStart(Env(ops, k), m, r); }
  }

  // An expression that could not be compiled, that raised an error, or that has a value
  datatype Answer = Rejected | Failed | Value(v: LuaMachine.Value)

  // From nothing but tokens: an expression in a function with n parameters is compiled by itself
  // and run.  It has the value of its tree in the registers at the start, or fails as that does.
  method Interpret(toks: seq<P.Token>, n: nat, ops: Ops, regs: Regs) returns (answer: Answer)
    requires n <= MAXVARS && S.LocalsActive(toks, n)
    ensures var p := P.Subexpr(toks, 0, 0, S.LUAI_MAXCCALLS);
            (answer.Rejected? <==> !(p.Some? && C.Finished(C.ToNextReg(ops, NewFunction(n), p.value.0).0).ok)) &&
            (!answer.Rejected? ==> Eval(ops, p.value.0, regs) == if answer.Failed? then None else Some(answer.v))
  {
    hide Eval, C.ToNextReg, C.Finished, P.Subexpr;
    var ls := new S.LexState(toks);
    var fs := new FuncState(n);
    var e := new ExpDesc(VNIL, 0);
    var ci := new CallInfo(regs, 0);
    NewBegins(n);
    var status := Evaluate(ls, fs, e, ops, ci);
    if !ls.ok || !fs.ok { return Rejected; }
    if status == Raised { return Failed; }
    answer := Value(Get(ci.regs, n));
  }

  ghost function NewFunction(n: nat): FS { FS([], [], 0, [], n, n, if n < 2 then 2 else n, true) }

  lemma NewBegins(n: nat)
    requires n <= MAXVARS
    ensures S.Begins(NewFunction(n), 0, {}, n)
  {}
}
