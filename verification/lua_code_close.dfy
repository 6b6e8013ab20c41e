// exp2reg: every run of an expression ends with its value in one register.
module LuaCodeClose {
  import opened Common
  import opened LuaMachine
  import opened LuaCodegen
  import opened LuaCodeRuns
  import opened LuaCodeMeaning

  // ----- linking lists -----

  // Writing the link of a pending jump changes no run.
  lemma LinkMeans(c: Ctx, fs: FS, e: Exp, outer: set<nat>, fr: nat, skip: int, g: Goal, pc: nat, dest: int)
    requires Good(c, fs, e, outer, fr, skip, g) && pc in outer + Elems(fs.jpc) + Own(e)
    ensures Good(c, FixJump(fs, pc, dest), e, outer, fr, skip, g)
    ensures KeepsControls(fs.code, FixJump(fs, pc, dest).code, outer + Own(e))
  {
    var fs' := FixJump(fs, pc, dest);
    var stops := outer + Elems(fs.jpc) + Own(e);
    LinkShape(fs, e, c.b, outer, pc, dest);
    if !(g.Elsewhere? && g.o.Stuck?) {
      OutcomeIsSensible(c, fs, e, outer, fr, skip, g);
      AlikeRuns(c.env, fs.code, fs'.code, stops, Lim(fs, e), c.b, c.s);
      var o := Outcomes(c, fs, e, outer);
      assert Outcomes(c, fs', e, outer) == o;
      if g.Wanted? && Leaves(fs.code, e, g.v, o) { StillLeaves(fs.code, fs'.code, e, outer, g.v, o); }
    }
  }

  lemma LinkShape(fs: FS, e: Exp, b: nat, outer: set<nat>, pc: nat, dest: int)
    requires Shaped(fs, e, b, outer) && pc in outer + Elems(fs.jpc) + Own(e)
    ensures Shaped(FixJump(fs, pc, dest), e, b, outer)
    ensures KeepsControls(fs.code, FixJump(fs, pc, dest).code, outer + Own(e))
    ensures Alike(fs.code, FixJump(fs, pc, dest).code, outer + Elems(fs.jpc) + Own(e), b, Lim(fs, e))
    ensures Lim(FixJump(fs, pc, dest), e) == Lim(fs, e)
    ensures e.kind == VRELOCABLE ==> FixJump(fs, pc, dest).code[e.info] == fs.code[e.info]
  {
    var fs' := FixJump(fs, pc, dest);
    forall i | 0 <= i < |fs'.code| ensures PairedAt(fs'.code, i) { assert PairedAt(fs.code, i); }
    forall i | b <= i < |fs'.code| && i !in outer + Elems(fs.jpc) + Own(e) ensures TargetAt(fs'.code[i], i, fs.lasttarget) {
      assert TargetAt(fs.code[i], i, fs.lasttarget);
    }
    forall j | j in outer + Own(e) ensures fs'.code[j - 1] == fs.code[j - 1] { assert TMode(fs.code[j - 1]); }
    forall i | b <= i < Lim(fs, e) ensures AlikeAt(fs.code, fs'.code, outer + Elems(fs.jpc) + Own(e), i) {}
  }

  lemma StillLeaves(code: seq<Instr>, code': seq<Instr>, e: Exp, outer: set<nat>, v: Option<Value>, o: Outcome)
    requires Leaves(code, e, v, o) && |code'| >= |code| && KeepsControls(code, code', outer + Own(e))
    ensures Leaves(code', e, v, o)
  {
    match o
    case Taken(j, _) =>
      assert j in e.t ==> j in Elems(e.t);
      assert j in e.f ==> j in Elems(e.f);
    case _ =>
  }

  lemma ConcatMeans(c: Ctx, fs: FS, e: Exp, outer: set<nat>, fr: nat, skip: int, g: Goal, l1: seq<nat>, l2: seq<nat>)
    requires Good(c, fs, e, outer, fr, skip, g) && Elems(l1) <= outer + Elems(fs.jpc) + Own(e)
    ensures Good(c, Concat(fs, l1, l2), e, outer, fr, skip, g)
    ensures KeepsControls(fs.code, Concat(fs, l1, l2).code, outer + Own(e))
    ensures var fs' := Concat(fs, l1, l2); fs' == fs.(code := fs'.code, ok := fs'.ok) && |fs'.code| == |fs.code|
  {
    if l1 != [] && l2 != [] {
      assert l1[|l1| - 1] in Elems(l1);
      LinkMeans(c, fs, e, outer, fr, skip, g, l1[|l1| - 1], l2[0]);
    }
  }

  // ----- a comparison as a value -----

  // The jump of a comparison joins the list of exits when true; arriving means false.
  ghost function AsList(e: Exp): Exp { e.(kind := VFALSE, t := e.t + [e.info]) }

  lemma JumpAsList(c: Ctx, fs: FS, e: Exp, outer: set<nat>, fr: nat, skip: int, g: Goal)
    requires Good(c, fs, e, outer, fr, skip, g) && e.kind == VJMP
    ensures Good(c, fs, AsList(e), outer, fr, skip, g) && Own(AsList(e)) == Own(e)
  {
    var e' := AsList(e);
    assert Elems(e'.t) == Elems(e.t) + {e.info};
    assert outer + Elems(fs.jpc) + Own(e') == outer + Elems(fs.jpc) + Own(e);
    assert e.info !in e.t by { assert e.info in e.t ==> e.info in Elems(e.t); }
    var o := Outcomes(c, fs, e, outer);
    if g.Wanted? && o.Taken? && o.j == e.info { assert o.j in e'.t; }
    if g.Wanted? && o.Taken? && o.j in e.t { assert o.j in e'.t; }
  }

  // ----- patching both lists -----

  lemma {:induction false} NoNeed(code: seq<Instr>, list: seq<nat>, j: nat)
    requires !NeedValue(code, list) && j in list
    ensures ProducesValue(code, j)
    decreases |list|
  {
    if j != list[0] { NoNeed(code, list[1..], j); }
  }

  // Where patching sends the jump at j, and what its test does then.
  ghost predicate Redirected(code: seq<Instr>, code': seq<Instr>, j: nat, vt: nat, reg: nat, dt: int)
  {
    0 < j < |code| && |code'| == |code| && code'[j].JMP? &&
    code'[j].sbx == (if code[j - 1].TESTSET? then vt else dt) - (j + 1) &&
    code'[j - 1] == (if !code[j - 1].TESTSET? then code[j - 1]
                     else if reg != NO_REG && reg != code[j - 1].b then TESTSET(reg, code[j - 1].b, code[j - 1].c)
                     else TEST(code[j - 1].b, code[j - 1].c))
  }

  lemma PatchBoth(fs: FS, f: seq<nat>, t: seq<nat>, final: nat, reg: nat, p_f: int, p_t: int, b: nat, lim: nat)
    requires Distinct(f) && Distinct(t) && Elems(f) !! Elems(t) && Jumps(fs.code, Elems(f) + Elems(t))
    requires Controlled(fs.code, Elems(f) + Elems(t)) && Paired(fs.code) && lim <= |fs.code|
    ensures var fs' := PatchListAux(PatchListAux(fs, f, final, reg, p_f), t, final, reg, p_t);
            Alike(fs.code, fs'.code, Elems(f) + Elems(t), b, lim) && Paired(fs'.code) && |fs'.code| == |fs.code| &&
            (forall j :: j in f ==> Redirected(fs.code, fs'.code, j, final, reg, p_f)) &&
            (forall j :: j in t ==> Redirected(fs.code, fs'.code, j, final, reg, p_t)) &&
            forall i :: 0 <= i < |fs.code| && i !in f && i !in t && i + 1 !in f && i + 1 !in t ==> fs'.code[i] == fs.code[i]
  {
    var fs1 := PatchListAux(fs, f, final, reg, p_f);
    var fs' := PatchListAux(fs1, t, final, reg, p_t);
    assert forall j :: j in f ==> j in Elems(f);
    assert forall j :: j in t ==> j in Elems(t);
    PatchListIsPatched(fs, f, final, reg, p_f);
    PatchedShape(fs.code, fs1.code, f, final, reg, p_f);
    PatchListIsPatched(fs1, t, final, reg, p_t);
    PatchedShape(fs1.code, fs'.code, t, final, reg, p_t);
    PatchedTwice(fs.code, fs1.code, fs'.code, f, t, final, reg, p_f, p_t);
    forall i | b <= i < lim ensures AlikeAt(fs.code, fs'.code, Elems(f) + Elems(t), i) {
      assert PatchedAt(fs.code, fs1.code, f, final, reg, p_f, i) &&
             PatchedAt(fs1.code, fs'.code, t, final, reg, p_t, i);
      assert i + 1 in f ==> i + 1 in Elems(f);
      assert i + 1 in t ==> i + 1 in Elems(t);
    }
    forall i | 0 <= i < |fs.code| && i !in f && i !in t && i + 1 !in f && i + 1 !in t ensures fs'.code[i] == fs.code[i] {
      assert PatchedAt(fs.code, fs1.code, f, final, reg, p_f, i) &&
             PatchedAt(fs1.code, fs'.code, t, final, reg, p_t, i);
    }
  }

  lemma PatchedTwice(code: seq<Instr>, code1: seq<Instr>, code2: seq<Instr>, f: seq<nat>, t: seq<nat>, final: nat,
                     reg: nat, p_f: int, p_t: int)
    requires Patched(code, code1, f, final, reg, p_f) && Patched(code1, code2, t, final, reg, p_t)
    requires (forall j :: j in f ==> j !in t && 0 < j < |code| && TMode(code[j - 1]) && code[j].JMP?)
    requires (forall j :: j in t ==> j !in f && 0 < j < |code| && TMode(code[j - 1]) && code[j].JMP?)
    ensures forall j :: j in f ==> Redirected(code, code2, j, final, reg, p_f)
    ensures forall j :: j in t ==> Redirected(code, code2, j, final, reg, p_t)
  {
    forall j | j in f ensures Redirected(code, code2, j, final, reg, p_f) {
      assert PatchedAt(code, code1, f, final, reg, p_f, j) && PatchedAt(code, code1, f, final, reg, p_f, j - 1);
      assert PatchedAt(code1, code2, t, final, reg, p_t, j) && PatchedAt(code1, code2, t, final, reg, p_t, j - 1);
      assert j - 1 !in f && j - 1 !in t;
    }
    forall j | j in t ensures Redirected(code, code2, j, final, reg, p_t) {
      assert PatchedAt(code, code1, f, final, reg, p_f, j) && PatchedAt(code, code1, f, final, reg, p_f, j - 1);
      assert PatchedAt(code1, code2, t, final, reg, p_t, j) && PatchedAt(code1, code2, t, final, reg, p_t, j - 1);
      assert j - 1 !in f && j - 1 !in t;
    }
  }

  // A run that leaves by a redirected jump arrives with its value in reg: directly if its test
  // has the value, else through the instruction that loads the truth value.
  lemma RedirectedRun(env: Env, code: seq<Instr>, code': seq<Instr>, j: nat, reg: nat, dt: int, stops: set<nat>,
                      r: Regs,
                      v: Option<Value>, flag: bool)
    requires Redirected(code, code', j, |code|, reg, dt) && j !in stops && reg != NO_REG
    requires TakenVal(code, j, r, v, flag)
    requires !code[j - 1].TESTSET? ==>
               j < dt && dt < |code'| && dt !in stops && code'[dt] == LOADBOOL(reg, flag, !flag) &&
               dt + (if flag then 1 else 2) == |code'|
    ensures var o := TakeJump(env, code', stops, |code'|, j, r);
            o.At? && o.pc == |code'| && Some(Get(o.regs, reg)) == v &&
            forall i: nat :: i != reg ==> Get(o.regs, i) == Get(r, i)
  {
    var n := |code'|;
    if code[j - 1].TESTSET? {
      assert TakeJump(env, code', stops, n, j, r) == Run(env, code', stops, n, n, TestEffect(code'[j - 1], r));
    } else {
      assert TakeJump(env, code', stops, n, j, r) == Run(env, code', stops, n, dt, r);
      assert Run(env, code', stops, n, dt, r) == Run(env, code', stops, n, n, r[reg := Bool(flag)]);
    }
  }

  // ----- closing the lists -----

  // What the patches rely on: every exit has its value, or the two loads stand at the end.
  ghost predicate Landing(fs: FS, e: Exp, reg: nat, p_f: int, p_t: int) {
    (forall j :: j in e.t || j in e.f ==> j > 0 && j <= |fs.code| && fs.code[j - 1].TESTSET?) ||
    (|fs.code| >= 2 && p_f == |fs.code| - 2 && p_t == |fs.code| - 1 &&
     fs.code[|fs.code| - 2] == LOADBOOL(reg, false, true) && fs.code[|fs.code| - 1] == LOADBOOL(reg, true, false) &&
     forall j :: j in e.t || j in e.f ==> j < |fs.code| - 2)
  }

  ghost function Closed(fs: FS, e: Exp, reg: nat, p_f: int, p_t: int): FS {
    PatchListAux(PatchListAux(GetLabel(fs), e.f, |fs.code|, reg, p_f), e.t, |fs.code|, reg, p_t)
  }

  ghost function Placed(e: Exp, reg: nat): Exp { Exp(VNONRELOC, reg, e.nval, [], []) }

  // The closed code, instruction by instruction.
  ghost predicate ClosedCode(fs: FS, e: Exp, code': seq<Instr>, reg: nat, p_f: int, p_t: int) {
    |code'| == |fs.code| && Paired(code') &&
    (forall j :: j in e.f ==> Redirected(fs.code, code', j, |fs.code|, reg, p_f)) &&
    (forall j :: j in e.t ==> Redirected(fs.code, code', j, |fs.code|, reg, p_t)) &&
    forall i :: 0 <= i < |fs.code| && i !in e.f && i !in e.t && i + 1 !in e.f && i + 1 !in e.t ==> code'[i] == fs.code[i]
  }

  lemma ClosedFacts(fs: FS, e: Exp, b: nat, outer: set<nat>, reg: nat, p_f: int, p_t: int)
    requires Shaped(fs, e, b, outer)
    ensures ClosedCode(fs, e, Closed(fs, e, reg, p_f, p_t).code, reg, p_f, p_t)
    ensures Alike(fs.code, Closed(fs, e, reg, p_f, p_t).code, Elems(e.f) + Elems(e.t), b, |fs.code|)
    ensures var fs' := Closed(fs, e, reg, p_f, p_t); fs' == fs.(code := fs'.code, ok := fs'.ok, lasttarget := |fs.code|) && Grows(fs, fs')
  {
    PatchBoth(GetLabel(fs), e.f, e.t, |fs.code|, reg, p_f, p_t, b, |fs.code|);
  }

  lemma ClosedTargets(fs: FS, e: Exp, b: nat, outer: set<nat>, code': seq<Instr>, reg: nat, p_f: int, p_t: int)
    requires Shaped(fs, e, b, outer) && Settled(e) && Landing(fs, e, reg, p_f, p_t) &&
             ClosedCode(fs, e, code', reg, p_f, p_t)
    ensures Targets(code', b, |fs.code|, outer + Elems(fs.jpc))
  {
    var n := |fs.code|;
    forall i | b <= i < n && i !in outer + Elems(fs.jpc) ensures TargetAt(code'[i], i, n) {
      if i in e.f { assert Redirected(fs.code, code', i, n, reg, p_f); }
      else if i in e.t { assert Redirected(fs.code, code', i, n, reg, p_t); }
      else {
        assert i !in Own(e);
        assert TargetAt(fs.code[i], i, fs.lasttarget);
        if i + 1 in e.f { assert Redirected(fs.code, code', i + 1, n, reg, p_f); }
        if i + 1 in e.t { assert Redirected(fs.code, code', i + 1, n, reg, p_t); }
      }
    }
  }

  lemma ClosedControls(fs: FS, e: Exp, b: nat, outer: set<nat>, code': seq<Instr>, reg: nat, p_f: int, p_t: int)
    requires Shaped(fs, e, b, outer) && ClosedCode(fs, e, code', reg, p_f, p_t)
    ensures KeepsControls(fs.code, code', outer) && Controlled(code', outer) && Jumps(code', outer + Elems(fs.jpc))
  {
    assert forall j :: j in e.f ==> j in Elems(e.f);
    assert forall j :: j in e.t ==> j in Elems(e.t);
    forall j | j in outer ensures code'[j - 1] == fs.code[j - 1] {
      assert TMode(fs.code[j - 1]);
      assert j !in e.f && j !in e.t && j - 1 !in e.f && j - 1 !in e.t;
    }
    forall j | j in outer + Elems(fs.jpc) ensures j < |code'| && code'[j].JMP? {
      assert j !in e.f && j !in e.t && fs.code[j].JMP?;
      if j + 1 in e.f { assert TMode(fs.code[j]); }
      if j + 1 in e.t { assert TMode(fs.code[j]); }
    }
  }

  lemma ClosedShape(fs: FS, e: Exp, b: nat, outer: set<nat>, reg: nat, p_f: int, p_t: int)
    requires Shaped(fs, e, b, outer) && Settled(e) && Landing(fs, e, reg, p_f, p_t)
    ensures Shaped(Closed(fs, e, reg, p_f, p_t), Placed(e, reg), b, outer)
    ensures KeepsControls(fs.code, Closed(fs, e, reg, p_f, p_t).code, outer)
  {
    ClosedFacts(fs, e, b, outer, reg, p_f, p_t);
    var fs', e' := Closed(fs, e, reg, p_f, p_t), Placed(e, reg);
    ClosedTargets(fs, e, b, outer, fs'.code, reg, p_f, p_t);
    ClosedControls(fs, e, b, outer, fs'.code, reg, p_f, p_t);
    assert Own(e') == {};
    assert outer + Elems(fs'.jpc) + Own(e') == outer + Elems(fs.jpc);
    hide Closed, Targets, Jumps, Paired, Controlled, Redirected;
  }

  lemma CloseMeans(c: Ctx, fs: FS, e: Exp, outer: set<nat>, fr: nat, reg: nat, g: Goal, p_f: int, p_t: int)
    requires Good(c, fs, e, outer, fr, reg, g) && e.kind == VNONRELOC && e.info == reg && reg != NO_REG
    requires Landing(fs, e, reg, p_f, p_t)
    ensures Good(c, Closed(fs, e, reg, p_f, p_t), Placed(e, reg), outer, fr, reg, g)
    ensures KeepsControls(fs.code, Closed(fs, e, reg, p_f, p_t).code, outer)
  {
    var n := |fs.code|;
    var fs', e' := Closed(fs, e, reg, p_f, p_t), Placed(e, reg);
    ClosedShape(fs, e, c.b, outer, reg, p_f, p_t);
    ClosedFacts(fs, e, c.b, outer, reg, p_f, p_t);
    if !(g.Elsewhere? && g.o.Stuck?) {
      var stops := outer + Elems(fs.jpc) + Own(e);
      assert outer + Elems(fs'.jpc) + Own(e') == outer + Elems(fs.jpc);
      OutcomeIsSensible(c, fs, e, outer, fr, reg, g);
      var o := Outcomes(c, fs, e, outer);
      CloseRuns(c, fs, e, fs'.code, outer, stops);
      if g.Elsewhere? {
        NotArrived(fs, outer, g);
      } else if Ends(c.env, fs, e, g.v, o) {
        EndsStay(c, fs, e, fs', e', outer, reg, g.v, o);
      } else {
        ExitsArrive(c, fs, e, fs'.code, outer, reg, p_f, p_t, g.v, o);
      }
    }
  }

  lemma CloseRuns(c: Ctx, fs: FS, e: Exp, code': seq<Instr>, outer: set<nat>, stops: set<nat>)
    requires stops == outer + Elems(fs.jpc) + Own(e) && |code'| == |fs.code|
    requires Alike(fs.code, code', Elems(e.f) + Elems(e.t), c.b, |fs.code|)
    requires !Run(c.env, fs.code, stops, |fs.code|, c.b, c.s).Stuck?
    ensures Run(c.env, code', outer + Elems(fs.jpc), |fs.code|, c.b, c.s) ==
            Resume(c.env, code', outer + Elems(fs.jpc), |fs.code|, Run(c.env, fs.code, stops, |fs.code|, c.b, c.s))
  {
    AlikeWiden(fs.code, code', Elems(e.f) + Elems(e.t), stops, c.b, |fs.code|);
    AlikeRuns(c.env, fs.code, code', stops, |fs.code|, c.b, c.s);
    Continue(c.env, code', stops, |fs.code|, outer + Elems(fs.jpc), |fs.code|, c.b, c.s);
  }

  lemma EndsStay(c: Ctx, fs: FS, e: Exp, fs': FS, e': Exp, outer: set<nat>, reg: nat, v: Option<Value>, o: Outcome)
    requires e.kind == VNONRELOC && e.info == reg && e' == Placed(e, reg) && |fs'.code| == |fs.code| &&
             fs'.jpc == fs.jpc
    requires Ends(c.env, fs, e, v, o) && Sensible(o, outer + Elems(fs.jpc) + Own(e), |fs.code|)
    ensures Resume(c.env, fs'.code, outer + Elems(fs.jpc), |fs.code|, o) == o && Ends(c.env, fs', e', v, o)
  {
    match o
    case At(pc, _) => assert pc in fs.jpc ==> pc in Elems(fs.jpc);
    case Taken(j, _) => assert j in Elems(fs.jpc);
    case _ =>
  }

  lemma ExitsArrive(c: Ctx, fs: FS, e: Exp, code': seq<Instr>, outer: set<nat>, reg: nat, p_f: int, p_t: int,
                    v: Option<Value>, o: Outcome)
    requires Shaped(fs, e, c.b, outer) && e.kind == VNONRELOC && reg != NO_REG && Landing(fs, e, reg, p_f, p_t)
    requires ClosedCode(fs, e, code', reg, p_f, p_t) && Leaves(fs.code, e, v, o)
    ensures var o' := Resume(c.env, code', outer + Elems(fs.jpc), |fs.code|, o);
            (o'.Err? && o.Err? && v.None?) ||
            (o.Taken? && o'.At? && o'.pc == |fs.code| && Some(Get(o'.regs, reg)) == v &&
             forall i: nat :: i != reg ==> Get(o'.regs, i) == Get(o.regs, i))
  {
    if o.Taken? {
      var stops' := outer + Elems(fs.jpc);
      var n := |fs.code|;
      var flag := o.j in e.t;
      var dt := if flag then p_t else p_f;
      assert o.j in e.t ==> o.j in Elems(e.t);
      assert o.j in e.f ==> o.j in Elems(e.f);
      assert o.j !in stops';
      assert Redirected(fs.code, code', o.j, n, reg, dt);
      if !fs.code[o.j - 1].TESTSET? { LoadsStay(fs, e, code', outer, reg, p_f, p_t, c.b); }
      RedirectedRun(c.env, fs.code, code', o.j, reg, dt, stops', o.regs, v, flag);
    }
  }

  lemma LoadsStay(fs: FS, e: Exp, code': seq<Instr>, outer: set<nat>, reg: nat, p_f: int, p_t: int, b: nat)
    requires Shaped(fs, e, b, outer) && ClosedCode(fs, e, code', reg, p_f, p_t) && |fs.code| >= 2
    requires fs.code[|fs.code| - 2] == LOADBOOL(reg, false, true) &&
             fs.code[|fs.code| - 1] == LOADBOOL(reg, true, false)
    ensures code'[|fs.code| - 2] == fs.code[|fs.code| - 2] && code'[|fs.code| - 1] == fs.code[|fs.code| - 1]
    ensures |fs.code| - 2 !in outer + Elems(fs.jpc) && |fs.code| - 1 !in outer + Elems(fs.jpc)
  {
    var n := |fs.code|;
    assert forall j :: j in e.f ==> j in Elems(e.f);
    assert forall j :: j in e.t ==> j in Elems(e.t);
    assert n - 1 !in Own(e) && n - 2 !in Own(e) && n !in Own(e);
  }

  lemma AlikeWiden(code: seq<Instr>, code': seq<Instr>, stops: set<nat>, stops': set<nat>, from: nat, lim: nat)
    requires Alike(code, code', stops, from, lim) && stops <= stops'
    ensures Alike(code, code', stops', from, lim)
  {
    forall i | from <= i < lim ensures AlikeAt(code, code', stops', i) { assert AlikeAt(code, code', stops, i); }
  }
}
