// Expressions one after the other, as in an expression list (explist in lparser.c): each is put
// into the next register, and the code of each runs after that of the others.
module LuaCodeLists {
  import opened Common
  import opened LuaMachine
  import opened LuaCodegen
  import opened LuaCodeRuns
  import opened LuaCodeMeaning
  import opened LuaCodeRegs
  import opened LuaCodeOperands
  import opened LuaCodeCompile
  import opened LuaCodeCorrect

  // The runs of the code from b on: they arrive with these registers, or have ended in an error.
  ghost predicate Arrives(env: Env, fs: FS, b: nat, s: Regs, r: Option<Regs>) {
    GenOK(fs, b, Elems(fs.jpc)) &&
    var o := Run(env, fs.code, Elems(fs.jpc), |fs.code|, b, s);
    match r
    case None => o == Err
    case Some(regs) => Sensible(o, Elems(fs.jpc), |fs.code|) && Arrived(o, fs.jpc, |fs.code|) && o.regs == regs
  }

  function ListToRegs(ops: Ops, fs: FS, xs: seq<Expr>): (fs': FS)
    ensures Grows(fs, fs')
    decreases |xs|
  {
    if xs == [] then fs else ListToRegs(ops, ToNextReg(ops, fs, xs[0]).0, xs[1..])
  }

  // The values of the expressions, None if evaluating one of them raises an error
  function EvalAll(ops: Ops, xs: seq<Expr>, r: Regs): (vs: Option<seq<Value>>)
    ensures vs.Some? ==> |vs.value| == |xs|
  {
    if xs == [] then Some([])
    else
      var v, rest := Eval(ops, xs[0], r), EvalAll(ops, xs[1..], r);
      if v.None? || rest.None? then None else Some([v.value] + rest.value)
  }

  ghost predicate AllScoped(xs: seq<Expr>, nactvar: nat) { forall i :: 0 <= i < |xs| ==> Scoped(xs[i], nactvar) }

  // The values in consecutive registers from base on; below base nothing has changed.
  ghost predicate Holds(r: Regs, r': Regs, base: nat, vs: seq<Value>) {
    (forall i: nat :: i < base ==> Get(r', i) == Get(r, i)) && forall i :: 0 <= i < |vs| ==> Get(r', base + i) == vs[i]
  }

  lemma ArrivesBegins(env: Env, fs: FS, b: nat, s: Regs, r: Option<Regs>, x: Expr)
    requires Arrives(env, fs, b, s, r)
    ensures var c := Ctx(env, b, s);
            Begun(c, fs, {}, fs.freereg) &&
            GoalFor(c, fs, {}, x) == if r.None? then Elsewhere(Err) else Wanted(r.value, Eval(env.ops, x, r.value))
  {
    assert {} + Elems(fs.jpc) == Elems(fs.jpc);
    assert {} + Elems(fs.jpc) + Own(Nothing()) == Elems(fs.jpc);
  }

  // What is known behind the code of one expression
  lemma ReadyArrives(c: Ctx, fs: FS, e: Exp, base: nat, g: Goal) returns (r: Option<Regs>)
    requires Ready(c, fs, e, {}, base, g) && e == Exp(VNONRELOC, base, e.nval, [], []) && fs.nactvar <= base
    requires g == Elsewhere(Err) || g.Wanted?
    ensures Arrives(c.env, fs, c.b, c.s, r) && fs.freereg == base + 1
    ensures r.None? <==> g == Elsewhere(Err) || g.v.None?
    ensures r.Some? ==> Get(r.value, base) == g.v.value && forall i: nat :: i < base ==> Get(r.value, i) == Get(g.r, i)
  {
    var o := Outcomes(c, fs, e, {});
    OutcomeIsSensible(c, fs, e, {}, base, -1, g);
    assert Own(e) == {} && {} + Elems(fs.jpc) + Own(e) == Elems(fs.jpc);
    r := if o.Err? then None else Some(o.regs);
  }

  // One more expression
  lemma NextArrives(env: Env, fs: FS, x: Expr, b: nat, s: Regs, r: Option<Regs>) returns (r': Option<Regs>)
    requires Arrives(env, fs, b, s, r) && Scoped(x, fs.nactvar)
    requires ToNextReg(env.ops, fs, x).0.ok && ToNextReg(env.ops, fs, x).0.k <= env.k
    ensures var fs' := ToNextReg(env.ops, fs, x).0;
            Arrives(env, fs', b, s, r') && fs'.freereg == fs.freereg + 1 && fs'.nactvar == fs.nactvar <= fs.freereg
    ensures r'.None? <==> r.None? || Eval(env.ops, x, r.value).None?
    ensures r'.Some? ==> Get(r'.value, fs.freereg) == Eval(env.ops, x, r.value).value && forall i: nat :: i < fs.freereg ==> Get(r'.value, i) == Get(r.value, i)
  {
    hide Arrives, Run, Ready, Compile, Exp2NextReg, GoalFor, Eval;
    var c := Ctx(env, b, s);
    ArrivesBegins(env, fs, b, s, r, x);
    CompileMeans(c, fs, x, {}, fs.freereg);
    var (fs1, e) := Compile(env.ops, fs, x);
    NextRegMeans(c, fs1, e, {}, fs.freereg, GoalFor(c, fs, {}, x));
    var (fs', e') := ToNextReg(env.ops, fs, x);
    r' := ReadyArrives(c, fs', e', fs.freereg, GoalFor(c, fs, {}, x));
  }

  lemma {:induction false} AgreeEval(ops: Ops, xs: seq<Expr>, r: Regs, r': Regs, nactvar: nat)
    requires AllScoped(xs, nactvar) && Agree(r, r', nactvar)
    ensures EvalAll(ops, xs, r) == EvalAll(ops, xs, r')
  {
    if xs != [] {
      EvalReadsLocals(ops, xs[0], r, r', nactvar);
      AgreeEval(ops, xs[1..], r, r', nactvar);
    }
  }

  // Once there has been an error, nothing else is evaluated.
  lemma {:induction false} ListArrives(env: Env, fs: FS, xs: seq<Expr>, b: nat, s: Regs, r: Option<Regs>)
    returns (r': Option<Regs>)
    requires Arrives(env, fs, b, s, r) && AllScoped(xs, fs.nactvar)
    requires ListToRegs(env.ops, fs, xs).ok && ListToRegs(env.ops, fs, xs).k <= env.k
    ensures var fs' := ListToRegs(env.ops, fs, xs); Arrives(env, fs', b, s, r') && fs'.freereg == fs.freereg + |xs|
    ensures r'.None? <==> r.None? || EvalAll(env.ops, xs, r.value).None?
    ensures r'.Some? ==> Holds(r.value, r'.value, fs.freereg, EvalAll(env.ops, xs, r.value).value)
    decreases |xs|
  {
    hide Arrives, ToNextReg, Eval;
    if xs == [] {
      r' := r;
    } else {
      var fs1 := ToNextReg(env.ops, fs, xs[0]).0;
      var r1 := NextArrives(env, fs, xs[0], b, s, r);
      r' := ListArrives(env, fs1, xs[1..], b, s, r1);
      if r1.Some? { AgreeEval(env.ops, xs[1..], r.value, r1.value, fs.nactvar); }
    }
  }

  lemma FinishedRuns(env: Env, fs: FS, b: nat, s: Regs, r: Option<Regs>)
    requires Arrives(env, fs, b, s, r)
    ensures var code' := Finished(fs).code;
            Run(env, code', {}, |code'|, b, s) == if r.None? then Err else At(|code'|, r.value)
  {
    assert {} + Elems(fs.jpc) == Elems(fs.jpc);
    EmitRuns(env, fs, [], {}, b, s, |fs.code|);
    assert Finished(fs).code == Emit(fs, []).code;
  }

  // The code for a list of expressions puts their values into consecutive registers, or ends in an
  // error exactly if evaluating one of them does.
  lemma ListCorrect(env: Env, fs: FS, xs: seq<Expr>, b: nat, s: Regs, r: Regs)
    requires Reaches(env, fs, b, s, r) && AllScoped(xs, fs.nactvar)
    requires ListToRegs(env.ops, fs, xs).ok && ListToRegs(env.ops, fs, xs).k <= env.k
    ensures var fs' := ListToRegs(env.ops, fs, xs); var code' := Finished(fs').code;
            var o, vs := Run(env, code', {}, |code'|, b, s), EvalAll(env.ops, xs, r);
            fs'.freereg == fs.freereg + |xs| &&
            if vs.None? then o == Err else o.At? && o.pc == |code'| && Holds(r, o.regs, fs.freereg, vs.value)
  {
    hide ListToRegs, Run;
    assert Arrives(env, fs, b, s, Some(r));
    var r' := ListArrives(env, fs, xs, b, s, Some(r));
    FinishedRuns(env, ListToRegs(env.ops, fs, xs), b, s, r');
  }
}
