// Which expressions are accepted, in numbers: everything of ordinary size is.
module LuaAccepts {
  import opened Common
  import opened LuaMachine
  import opened LuaCodegen
  import opened LuaCodeMeaning
  import opened LuaCodeFits
  import opened LuaCodeEncodes
  import opened LuaJumpCompile
  import opened LuaJumpLists
  import opened LuaJumpTidy
  import opened LuaVM
  import M = LuaPrecedence

  // An expression at the place where code generation stands
  lemma NextRegAccepted(ops: Ops, fs: FS, x: Expr, b: nat, outer: set<nat>)
    requires S.Begins(fs, b, outer, fs.freereg) && Scoped(x, fs.nactvar)
    requires |fs.code| + 12 * |P.Tokens(x)| + 5 <= 131070 && fs.freereg + P.Depth(x) < 250
    ensures C.Finished(C.ToNextReg(ops, fs, x).0).ok
  {
    hide Shaped, LinksOK, Tidy, LowLists, Compile, Exp2NextReg;
    DepthPositive(x);
    var base, n := fs.freereg, |fs.code| + 12 * |P.Tokens(x)|;
    StackSmall(fs, b, outer);
    CompileFits(ops, fs, x, b, outer, base, |fs.code|, 249);
    Compiles(ops, fs, x, b, outer, base, n, 249);
    var (fs1, e) := Compile(ops, fs, x);
    TidyLow(fs1, e, b, outer, base);
    TidyRegs(fs1, e, b, outer, base);
    LuaCodeFits.NextRegFits(fs1, e, base, n, 249);
    FinishFits(C.ToNextReg(ops, fs, x).0, n + 5, 249);
  }

  lemma StackSmall(fs: FS, b: nat, outer: set<nat>)
    requires S.Begins(fs, b, outer, fs.freereg)
    ensures fs.ok && fs.maxstack <= 249 && fs.nactvar <= fs.freereg
  {}

  lemma FinishFits(fs: FS, n: nat, m: nat)
    requires LuaCodeFits.Fits(fs, n, m)
    ensures C.Finished(fs).ok
  {
    PatchFits(fs, fs.jpc, |fs.code|, NO_REG, |fs.code|, n, m);
  }

  // In a new function
  lemma Accepted(ops: Ops, n: nat, x: Expr)
    requires n <= 200 && Scoped(x, n) && |P.Tokens(x)| <= 10000 && n + P.Depth(x) < 250
    ensures C.Finished(C.ToNextReg(ops, NewFunction(n), x).0).ok
  {
    hide C.ToNextReg, C.Finished;
    NewBegins(n);
    NextRegAccepted(ops, NewFunction(n), x, 0, {});
  }

  // All the instructions of an accepted expression, the last jumps patched
  lemma FinishedEncodes(ops: Ops, n: nat, x: Expr)
    requires n <= 200 && Scoped(x, n) && C.Finished(C.ToNextReg(ops, NewFunction(n), x).0).ok
    requires |C.ToNextReg(ops, NewFunction(n), x).0.k| <= 0x400_0000
    ensures var code := C.Finished(C.ToNextReg(ops, NewFunction(n), x).0).code;
            forall i :: 0 <= i < |code| ==> Encodes(code[i])
  {
    hide Shaped, LinksOK, Tidy, Step, SmallExp, StackOK, Compile, Exp2NextReg;
    NewBegins(n);
    var m := NewFunction(n);
    FinishedFits(C.ToNextReg(ops, m, x).0);
    var (fs1, e) := Compile(ops, m, x);
    assert fs1.ok && FewConstants(fs1) && Enc(m);
    CompileEncodes(ops, m, x, 0, {}, n);
    CompileTidy(ops, m, x, 0, {}, n);
    StepIsTidy(m, fs1, e, 0, {}, n);
    TidySmall(fs1, e, 0, {}, n);
    TidyStack(fs1, e, 0, {}, n);
    NextRegEnc(fs1, e);
    var fs2 := C.ToNextReg(ops, m, x).0;
    PatchEnc(fs2, fs2.jpc, |fs2.code|, NO_REG, |fs2.code|);
  }

  lemma {:induction false} NamesActive(x: Expr, n: nat)
    requires Scoped(x, n)
    ensures S.LocalsActive(P.Tokens(x), n)
  {
    match x
    case Const(_) =>
    case Local(_) =>
    case Paren(y) => NamesActive(y, n);
    case Not(y) => NamesActive(y, n);
    case Un(_, y) => NamesActive(y, n);
    case Bin(_, a, y) => NamesActive(a, n); NamesActive(y, n);
  }

  // From the text of a tree to its value: read with the manual's precedences, compiled and run.
  method InterpretTree(x: Expr, n: nat, ops: Ops, regs: Regs) returns (answer: Answer)
    requires n <= 200 && Scoped(x, n) && M.Stands(x, 1)
    requires |P.Tokens(x)| <= 10000 && P.Depth(x) <= 200 && n + P.Depth(x) < 250
    ensures !answer.Rejected? && Eval(ops, x, regs) == if answer.Failed? then None else Some(answer.v)
  {
    hide Eval, Scoped, C.ToNextReg, C.Finished, P.Subexpr, M.Stands, S.LocalsActive;
    NamesActive(x, n);
    M.ManualDecides(P.Tokens(x), 200, x);
    Accepted(ops, n, x);
    answer := Interpret(P.Tokens(x), n, ops, regs);
  }
}
