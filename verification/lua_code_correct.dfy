// Compiler correctness: what the finished code does when it is run.
module LuaCodeCorrect {
  import opened Common
  import opened LuaMachine
  import opened LuaCodegen
  import opened LuaCodeRuns
  import opened LuaCodeMeaning
  import opened LuaCodePlace
  import opened LuaCodeRegs
  import opened LuaCodeConds
  import opened LuaCodeOperands
  import opened LuaCodeCompile

  // An expression compiled to the next free register, as in an argument or a 'local' statement.
  function ToNextReg(ops: Ops, fs: FS, x: Expr): (res: (FS, Exp))
    ensures Grows(fs, res.0)
  {
    var (fs1, e) := Compile(ops, fs, x);
    Exp2NextReg(fs1, e)
  }

  // An expression assigned to the local variable in 'reg' (luaK_storevar).
  function ToLocal(ops: Ops, fs: FS, x: Expr, reg: nat): (res: FS)
    ensures Grows(fs, res)
  {
    var (fs1, e) := Compile(ops, fs, x);
    Exp2Reg(FreeExp(fs1, e), e, reg).0
  }

  // The code once the jumps that wait for the next instruction are patched.
  function Finished(fs: FS): FS { DischargeJpc(fs) }

  // The run ends behind the code with the value in reg and all other registers below 'base' as
  // they were, or in the error that evaluating the expression raises.
  ghost predicate Delivers(o: Outcome, n: nat, r: Regs, base: nat, reg: nat, v: Option<Value>) {
    match v
    case None => o == Err
    case Some(w) =>
      o.At? && o.pc == n && Get(o.regs, reg) == w && forall i: nat :: i < base && i != reg ==> Get(o.regs, i) == Get(r, i)
  }

  // The generator stands behind code from 'b' on whose runs from s arrive with registers r.
  ghost predicate Reaches(env: Env, fs: FS, b: nat, s: Regs, r: Regs) {
    GenOK(fs, b, Elems(fs.jpc)) &&
    var o := Run(env, fs.code, Elems(fs.jpc), |fs.code|, b, s);
    Sensible(o, Elems(fs.jpc), |fs.code|) && Arrived(o, fs.jpc, |fs.code|) && o.regs == r
  }

  lemma ReachesBegins(env: Env, fs: FS, b: nat, s: Regs, r: Regs, x: Expr)
    requires Reaches(env, fs, b, s, r)
    ensures var c := Ctx(env, b, s);
            Begun(c, fs, {}, fs.freereg) && GoalFor(c, fs, {}, x) == Wanted(r, Eval(env.ops, x, r))
  {
    assert {} + Elems(fs.jpc) == Elems(fs.jpc);
    assert {} + Elems(fs.jpc) + Own(Nothing()) == Elems(fs.jpc);
  }

  lemma FinishRuns(c: Ctx, fs: FS, e: Exp, fr: nat, skip: int, g: Goal)
    requires Good(c, fs, e, {}, fr, skip, g) && g.Wanted? && e.kind == VNONRELOC && e.t == [] && e.f == []
    requires if skip < 0 then e.info >= fr else skip == e.info
    ensures Delivers(Run(c.env, Finished(fs).code, {}, |fs.code|, c.b, c.s), |fs.code|, g.r, fr, e.info, g.v)
  {
    var o := Outcomes(c, fs, e, {});
    OutcomeIsSensible(c, fs, e, {}, fr, skip, g);
    assert Own(e) == {} && {} + Elems(fs.jpc) + Own(e) == {} + Elems(fs.jpc);
    EmitRuns(c.env, fs, [], {}, c.b, c.s, |fs.code|);
    assert Finished(fs).code == Emit(fs, []).code;
  }

  // The code for an expression, followed by exp2nextreg, computes the value of the expression
  // into the first free register and takes exactly that register.
  lemma NextRegCorrect(env: Env, fs: FS, x: Expr, b: nat, s: Regs, r: Regs)
    requires Reaches(env, fs, b, s, r) && Scoped(x, fs.nactvar)
    requires ToNextReg(env.ops, fs, x).0.ok && ToNextReg(env.ops, fs, x).0.k <= env.k
    ensures var (fs', e') := ToNextReg(env.ops, fs, x); var code' := Finished(fs').code;
            Delivers(Run(env, code', {}, |code'|, b, s), |code'|, r, fs.freereg, fs.freereg, Eval(env.ops, x, r)) &&
            fs'.freereg == fs.freereg + 1 && e'.kind == VNONRELOC && e'.info == fs.freereg
  {
    hide Reaches, Run, Ready, Delivers, Compile, Exp2NextReg, GoalFor;
    var c := Ctx(env, b, s);
    ReachesBegins(env, fs, b, s, r, x);
    CompileMeans(c, fs, x, {}, fs.freereg);
    var (fs1, e) := Compile(env.ops, fs, x);
    NextRegMeans(c, fs1, e, {}, fs.freereg, GoalFor(c, fs, {}, x));
    var (fs', e') := ToNextReg(env.ops, fs, x);
    Plainly(c, fs', e', fs.freereg, GoalFor(c, fs, {}, x));
    FinishedLength(fs');
  }

  lemma Plainly(c: Ctx, fs: FS, e: Exp, base: nat, g: Goal)
    requires Ready(c, fs, e, {}, base, g) && g.Wanted? && e == Exp(VNONRELOC, base, e.nval, [], []) &&
             fs.nactvar <= base
    ensures Delivers(Run(c.env, Finished(fs).code, {}, |fs.code|, c.b, c.s), |fs.code|, g.r, base, base, g.v)
    ensures fs.freereg == base + 1
  {
    FinishRuns(c, fs, e, base, -1, g);
  }

  lemma FinishedLength(fs: FS)
    ensures |Finished(fs).code| == |fs.code|
  {}

  // Assigning an expression to a local variable changes that variable and no other register in
  // use, and leaves no register taken.
  lemma AssignCorrect(env: Env, fs: FS, x: Expr, reg: nat, b: nat, s: Regs, r: Regs)
    requires Reaches(env, fs, b, s, r) && Scoped(x, fs.nactvar) && reg < fs.nactvar && reg != NO_REG
    requires ToLocal(env.ops, fs, x, reg).ok && ToLocal(env.ops, fs, x, reg).k <= env.k
    ensures var fs' := ToLocal(env.ops, fs, x, reg); var code' := Finished(fs').code;
            Delivers(Run(env, code', {}, |code'|, b, s), |code'|, r, fs.freereg, reg, Eval(env.ops, x, r)) &&
            fs'.freereg == fs.freereg
  {
    hide Reaches, Run, Good, Delivers, Compile, Exp2Reg, GoalFor;
    var c := Ctx(env, b, s);
    ReachesBegins(env, fs, b, s, r, x);
    CompileMeans(c, fs, x, {}, fs.freereg);
    var (fs1, e) := Compile(env.ops, fs, x);
    var g := GoalFor(c, fs, {}, x);
    FreeMeans(c, fs1, e, {}, fs.freereg, g);
    Exp2RegMeans(c, FreeExp(fs1, e), e, reg, {}, fs.freereg, g);
    var (fs', e') := Exp2Reg(FreeExp(fs1, e), e, reg);
    FinishRuns(c, fs', e', fs.freereg, reg, g);
    FinishedLength(fs');
  }

  // Where a statement starts: a label, with no jump waiting.
  lemma StatementStart(env: Env, fs: FS, r: Regs)
    requires Paired(fs.code) && fs.jpc == [] && fs.lasttarget == |fs.code|
    requires fs.nactvar <= fs.freereg <= fs.maxstack && (fs.ok ==> fs.maxstack < MAXSTACK)
    ensures Reaches(env, fs, |fs.code|, r, r)
  {}
}
