// Putting the value of an expression into a register: discharge2reg and exp2reg.
module LuaCodeLoads {
  import opened Common
  import opened LuaMachine
  import opened LuaCodegen
  import opened LuaCodeRuns
  import opened LuaCodeMeaning

  ghost function InReg(e: Exp, reg: nat): Exp { e.(kind := VNONRELOC, info := reg) }

  // tail loads the value that a run has on arrival at e into reg.
  ghost predicate IsLoad(env: Env, fs: FS, e: Exp, tail: seq<Instr>, reg: nat) {
    (|tail| == 1 && (tail[0] == MOVE(reg, e.info) && e.kind == VNONRELOC)) ||
    (|tail| == 1 && tail[0].LOADK? && tail[0].a == reg && (e.kind == VK || e.kind == VKNUM) &&
      forall r :: Some(KAt(env, tail[0].bx)) == EndVal(env, fs, e, r)) ||
    (|tail| == 1 && tail[0] == LOADBOOL(reg, e.kind == VTRUE, false) && (e.kind == VTRUE || e.kind == VFALSE)) ||
    (|tail| == 1 && tail[0] == LOADNIL(reg, 0) && e.kind == VNIL) ||
    (|tail| == 2 && tail[0] == LOADKX(reg) && tail[1].EXTRAARG? && (e.kind == VK || e.kind == VKNUM) &&
      forall r :: Some(KAt(env, tail[1].ax)) == EndVal(env, fs, e, r))
  }

  lemma RunLoad(env: Env, fs: FS, e: Exp, tail: seq<Instr>, reg: nat, code: seq<Instr>, stops: set<nat>, r: Regs)
    requires IsLoad(env, fs, e, tail, reg) && |code| == |fs.code| + |tail|
    requires (forall t :: 0 <= t < |tail| ==> code[|fs.code| + t] == tail[t]) &&
             forall j :: j in stops ==> j < |fs.code|
    ensures EndVal(env, fs, e, r).Some?
    ensures Run(env, code, stops, |code|, |fs.code|, r) == At(|code|, r[reg := EndVal(env, fs, e, r).value])
  {
    var n := |fs.code|;
    assert code[n] == tail[0];
    if |tail| == 2 {
      assert code[n + 1] == tail[1];
    }
  }

  lemma EmitLoad(c: Ctx, fs: FS, e: Exp, tail: seq<Instr>, reg: nat, outer: set<nat>, fr: nat, g: Goal)
    requires Good(c, fs, e, outer, fr, -1, g) && Settled(e) && IsLoad(c.env, fs, e, tail, reg)
    ensures Good(c, Emit(fs, tail), InReg(e, reg), outer, fr, reg, g)
    ensures KeepsControls(fs.code, Emit(fs, tail).code, outer)
  {
    hide Shaped, IsLoad, Run, Emit, Sem, GoalOK, Leaves, EndVal, Own, ListsApart, KeepsControls;
    LoadIsPlain(c.env, fs, e, tail, reg);
    PlainShape(fs, e, tail, reg, c.b, outer);
    var fs', e' := Emit(fs, tail), InReg(e, reg);
    KeepsFewer(fs.code, fs'.code, outer, Own(e));
    GoalOKLater(g, outer, |fs.code|, |fs'.code|);
    if g == Elsewhere(Stuck) {
      StuckSem(c, fs', e', outer, fr, reg, g);
    } else {
      EmitKeepsLeaving(c, fs, e, tail, outer, fr, g, |fs'.code|);
      var o := Outcomes(c, fs, e, outer);
      LoadedOutcome(c, fs', e', outer, outer + Own(e));
      if g.Wanted? && Arrived(o, fs.jpc, |fs.code|) {
        RunLoad(c.env, fs, e, tail, reg, fs'.code, outer + Own(e), o.regs);
        ArrivedFits(c, fs, e, outer, fr, g, o);
        LoadArrives(c, fs', e', outer, fr, reg, g, o.regs);
      } else if g.Wanted? {
        LeavingFits(c, fs, e, outer, fr, g, o);
        LoadLeaves(c, fs', e, reg, outer, fr, g, o);
      } else {
        ElsewhereSem(c, fs', e', outer, fr, reg, g);
      }
    }
  }

  lemma KeepsFewer(code: seq<Instr>, code': seq<Instr>, outer: set<nat>, more: set<nat>)
    requires KeepsControls(code, code', outer + more)
    ensures KeepsControls(code, code', outer)
  {}

  lemma GoalOKLater(g: Goal, outer: set<nat>, n: nat, m: nat)
    requires GoalOK(g, outer, n) && n <= m
    ensures GoalOK(g, outer, m)
  {}

  lemma StuckSem(c: Ctx, fs: FS, e: Exp, outer: set<nat>, fr: nat, skip: int, g: Goal)
    requires g == Elsewhere(Stuck)
    ensures Sem(c, fs, e, outer, fr, skip, g)
  {}

  lemma ElsewhereSem(c: Ctx, fs: FS, e: Exp, outer: set<nat>, fr: nat, skip: int, g: Goal)
    requires g.Elsewhere? && Outcomes(c, fs, e, outer) == g.o
    ensures Sem(c, fs, e, outer, fr, skip, g)
  {}

  lemma LoadedOutcome(c: Ctx, fs: FS, e: Exp, outer: set<nat>, stops: set<nat>)
    requires e.kind == VNONRELOC && stops == outer + Elems(fs.jpc) + Own(e)
    ensures Outcomes(c, fs, e, outer) == Run(c.env, fs.code, stops, |fs.code|, c.b, c.s)
  {}

  lemma ArrivedFits(c: Ctx, fs: FS, e: Exp, outer: set<nat>, fr: nat, g: Goal, o: Outcome)
    requires Good(c, fs, e, outer, fr, -1, g) && Settled(e) && g.Wanted? && o == Outcomes(c, fs, e, outer) &&
             Arrived(o, fs.jpc, |fs.code|)
    ensures EndVal(c.env, fs, e, o.regs) == g.v && AgreeBut(g.r, o.regs, fr, -1)
  {
    NotBoth(fs, e, outer, g.v, o);
    hide Shaped, Run;
  }

  lemma LeavingFits(c: Ctx, fs: FS, e: Exp, outer: set<nat>, fr: nat, g: Goal, o: Outcome)
    requires Good(c, fs, e, outer, fr, -1, g) && g.Wanted? && o == Outcomes(c, fs, e, outer)
    ensures o.At? || o.Taken? ==> AgreeBut(g.r, o.regs, fr, -1)
  {
    hide Shaped, Run;
  }

  lemma LoadArrives(c: Ctx, fs: FS, e: Exp, outer: set<nat>, fr: nat, reg: nat, g: Goal, r: Regs)
    requires g.Wanted? && g.v.Some? && AgreeBut(g.r, r, fr, -1) && e.kind == VNONRELOC && e.info == reg
    requires Outcomes(c, fs, e, outer) == At(|fs.code|, r[reg := g.v.value])
    ensures Sem(c, fs, e, outer, fr, reg, g)
  {
    hide Run;
  }

  lemma LoadLeaves(c: Ctx, fs: FS, e: Exp, reg: nat, outer: set<nat>, fr: nat, g: Goal, o: Outcome)
    requires g.Wanted? && Leaves(fs.code, e, g.v, o) && Settled(e) && Outcomes(c, fs, InReg(e, reg), outer) == o
    requires o.At? || o.Taken? ==> AgreeBut(g.r, o.regs, fr, -1)
    ensures Sem(c, fs, InReg(e, reg), outer, fr, reg, g)
  {
    hide Run;
  }

  lemma LoadIsPlain(env: Env, fs: FS, e: Exp, tail: seq<Instr>, reg: nat)
    requires IsLoad(env, fs, e, tail, reg)
    ensures tail != [] && forall t :: 0 <= t < |tail| ==> TailAt(tail, |fs.code|, fs.lasttarget, {}, t)
  {}

  lemma PlainShape(fs: FS, e: Exp, tail: seq<Instr>, reg: nat, b: nat, outer: set<nat>)
    requires Shaped(fs, e, b, outer) && Settled(e)
    requires tail != [] && forall t :: 0 <= t < |tail| ==> TailAt(tail, |fs.code|, fs.lasttarget, {}, t)
    ensures var fs' := Emit(fs, tail);
            Shaped(fs', InReg(e, reg), b, outer) && fs'.jpc == [] && KeepsControls(fs.code, fs'.code, outer + Own(e)) &&
            |fs'.code| == |fs.code| + |tail| && (forall t :: 0 <= t < |tail| ==> fs'.code[|fs.code| + t] == tail[t]) &&
            (forall j :: j in outer + Own(e) ==> j < |fs.code|) &&
            outer + Own(e) == outer + Elems(fs'.jpc) + Own(InReg(e, reg))
  {
    EmitKeepsShape(fs, e, tail, b, outer, {});
    var fs', e' := Emit(fs, tail), InReg(e, reg);
    assert Own(e') == Own(e);
    assert outer + Own(e) + {} == outer + Elems(fs'.jpc) + Own(e');
  }

  // A run that has arrived has not left.
  lemma NotBoth(fs: FS, e: Exp, outer: set<nat>, v: Option<Value>, o: Outcome)
    requires ListsApart(fs, e, outer) && Settled(e) && Arrived(o, fs.jpc, Lim(fs, e))
    ensures !Leaves(fs.code, e, v, o)
  {
    match o
    case Taken(j, _) =>
      assert j in fs.jpc ==> j in Elems(fs.jpc);
      assert j in e.t ==> j in Elems(e.t);
      assert j in e.f ==> j in Elems(e.f);
    case _ =>
  }

  lemma MoreConstants(c: Ctx, fs: FS, k: seq<Value>, e: Exp, outer: set<nat>, fr: nat, skip: int, g: Goal)
    requires Good(c, fs, e, outer, fr, skip, g) && fs.k <= k
    ensures Good(c, fs.(k := k), e, outer, fr, skip, g)
  {}

  // ----- luaK_nil joining the instruction before it -----

  // What may stand at pc without passing m by.
  ghost predicate StopsShort(code: seq<Instr>, pc: nat, m: nat) {
    pc < m < |code| && PairedAt(code, pc) && TargetAt(code[pc], pc, m)
  }

  // No test, no load of a long constant ends at m.
  ghost predicate Entry(code: seq<Instr>, m: nat) { m < |code| && !code[m].JMP? && !code[m].EXTRAARG? }

  // Every way beyond m leads through m, if m can be entered and no jump is known to lead past it.
  lemma {:induction false} Through(env: Env, code: seq<Instr>, stops: set<nat>, b: nat, m: nat, pc: nat, r: Regs)
    requires b <= pc <= m && Entry(code, m)
    requires forall i :: b <= i < m && i !in stops ==> StopsShort(code, i, m)
    ensures var o := Run(env, code, stops, m, pc, r); o.At? ==> o.pc == m || o.pc in stops
    decreases |code| - pc
  {
    hide ValueOf, SetNils, KAt, RunTest;
    if pc < m && pc !in stops {
      var i := code[pc];
      assert StopsShort(code, pc, m);
      match i
      case JMP(s) => if s >= 0 { Through(env, code, stops, b, m, pc + 1 + s, r); }
      case LOADNIL(a, n) => Through(env, code, stops, b, m, pc + 1, SetNils(r, a, n));
      case LOADBOOL(a, v, true) => Through(env, code, stops, b, m, pc + 2, r[a := Bool(v)]);
      case LOADKX(a) => if pc + 1 !in stops { Through(env, code, stops, b, m, pc + 2, r[a := KAt(env, code[pc + 1].ax)]); }
      case EXTRAARG(_) =>
      case CMP(_, _, _, _) => ThroughTest(env, code, stops, b, m, pc, r);
      case TEST(_, _) => ThroughTest(env, code, stops, b, m, pc, r);
      case TESTSET(_, _, _) => ThroughTest(env, code, stops, b, m, pc, r);
      case _ =>
        var v := ValueOf(env, i, r);
        if v.Some? { Through(env, code, stops, b, m, pc + 1, r[i.a := v.value]); }
    }
  }

  lemma {:induction false} ThroughTest(env: Env, code: seq<Instr>, stops: set<nat>, b: nat, m: nat, pc: nat, r: Regs)
    requires b <= pc < m && Entry(code, m) && TMode(code[pc]) && pc !in stops
    requires forall i :: b <= i < m && i !in stops ==> StopsShort(code, i, m)
    ensures var o := RunTest(env, code, stops, m, pc, r); o.At? ==> o.pc == m || o.pc in stops
    decreases |code| - pc, 0
  {
    assert StopsShort(code, pc, m);
    var t := Takes(env, code[pc], r);
    if t.Some? {
      if !t.value {
        Through(env, code, stops, b, m, pc + 2, r);
      } else if pc + 1 !in stops && code[pc + 1].sbx >= 0 {
        assert StopsShort(code, pc + 1, m);
        Through(env, code, stops, b, m, pc + 2 + code[pc + 1].sbx, TestEffect(code[pc], r));
      }
    }
  }

  lemma {:induction false} NotStuckThrough(env: Env, code: seq<Instr>, stops: set<nat>, b: nat, m: nat, pc: nat,
                                           r: Regs)
    requires b <= pc && Entry(code, m)
    requires forall i :: b <= i < m && i !in stops ==> StopsShort(code, i, m)
    requires !Run(env, code, stops, |code|, pc, r).Stuck?
    ensures !Run(env, code, stops, m, pc, r).Stuck?
    decreases |code| - pc
  {
    hide ValueOf, SetNils, KAt, RunTest;
    if pc < m && pc !in stops {
      var i := code[pc];
      assert StopsShort(code, pc, m);
      match i
      case JMP(s) => NotStuckThrough(env, code, stops, b, m, pc + 1 + s, r);
      case LOADNIL(a, n) => NotStuckThrough(env, code, stops, b, m, pc + 1, SetNils(r, a, n));
      case LOADBOOL(a, v, true) => NotStuckThrough(env, code, stops, b, m, pc + 2, r[a := Bool(v)]);
      case LOADKX(a) => NotStuckThrough(env, code, stops, b, m, pc + 2, r[a := KAt(env, code[pc + 1].ax)]);
      case EXTRAARG(_) =>
      case CMP(_, _, _, _) => NotStuckTest(env, code, stops, b, m, pc, r);
      case TEST(_, _) => NotStuckTest(env, code, stops, b, m, pc, r);
      case TESTSET(_, _, _) => NotStuckTest(env, code, stops, b, m, pc, r);
      case _ =>
        var v := ValueOf(env, i, r);
        if v.Some? { NotStuckThrough(env, code, stops, b, m, pc + 1, r[i.a := v.value]); }
    }
  }

  lemma {:induction false} NotStuckTest(env: Env, code: seq<Instr>, stops: set<nat>, b: nat, m: nat, pc: nat, r: Regs)
    requires b <= pc < m && Entry(code, m) && TMode(code[pc]) && pc !in stops
    requires forall i :: b <= i < m && i !in stops ==> StopsShort(code, i, m)
    requires !RunTest(env, code, stops, |code|, pc, r).Stuck?
    ensures !RunTest(env, code, stops, m, pc, r).Stuck?
    decreases |code| - pc, 0
  {
    assert StopsShort(code, pc, m);
    var t := Takes(env, code[pc], r);
    if t.Some? {
      if !t.value {
        NotStuckThrough(env, code, stops, b, m, pc + 2, r);
      } else if pc + 1 !in stops {
        assert StopsShort(code, pc + 1, m);
        NotStuckThrough(env, code, stops, b, m, pc + 2 + code[pc + 1].sbx, TestEffect(code[pc], r));
      }
    }
  }

  // The joined LOADNIL sets both ranges.
  lemma JoinedNils(r: Regs, a: nat, n: nat, from: nat, from': nat, l': nat)
    requires from' == (if a < from then a else from) && l' == (if a + n > from then a + n else from)
    requires a <= from <= a + n + 1 || from <= a <= from + 1
    ensures forall i: nat :: Get(SetNils(r, from', l' - from'), i) == if i == from then Nil else Get(SetNils(r, a, n), i)
  {}

  // No jump passes the last instruction by, if it cannot be jumped over.
  lemma BeforeLast(fs: FS, e: Exp, b: nat, outer: set<nat>)
    requires Shaped(fs, e, b, outer) && |fs.code| > fs.lasttarget && fs.code[|fs.code| - 1].LOADNIL?
    ensures b < |fs.code|
    ensures var m := |fs.code| - 1; var stops := outer + Elems(fs.jpc) + Own(e);
            m !in stops && m + 1 !in stops && Entry(fs.code, m) &&
            forall i :: b <= i < m && i !in stops ==> StopsShort(fs.code, i, m)
  {
    var m := |fs.code| - 1;
    forall i | b <= i < m && i !in outer + Elems(fs.jpc) + Own(e) ensures StopsShort(fs.code, i, m) {
      assert PairedAt(fs.code, i) && TargetAt(fs.code[i], i, fs.lasttarget);
    }
  }

  // The runs of the joined code: as before, but with the new register nil on arrival.
  lemma JoinedRuns(c: Ctx, fs: FS, e: Exp, reg: nat, outer: set<nat>, from': nat, l': nat, code': seq<Instr>)
    requires Shaped(fs, e, c.b, outer) && |fs.code| > fs.lasttarget && fs.code[|fs.code| - 1].LOADNIL?
    requires var p := fs.code[|fs.code| - 1];
             (p.a <= reg <= p.a + p.n + 1 || reg <= p.a <= reg + 1) &&
             from' == (if p.a < reg then p.a else reg) && l' == (if p.a + p.n > reg then p.a + p.n else reg)
    requires code' == fs.code[|fs.code| - 1 := LOADNIL(from', l' - from')]
    requires var stops := outer + Elems(fs.jpc) + Own(e); !Run(c.env, fs.code, stops, |fs.code|, c.b, c.s).Stuck?
    ensures var n := |fs.code|; var stops := outer + Elems(fs.jpc) + Own(e);
            var o := Run(c.env, fs.code, stops, n, c.b, c.s); var o' := Run(c.env, code', stops, n, c.b, c.s);
            if o.At? && o.pc == n then
              o'.At? && o'.pc == n && forall i: nat :: Get(o'.regs, i) == if i == reg then Nil else Get(o.regs, i)
            else o' == o
  {
    hide Shaped, StopsShort, Own, Elems, Entry;
    var n := |fs.code|;
    var m := n - 1;
    var p := fs.code[m];
    var stops := outer + Elems(fs.jpc) + Own(e);
    BeforeLast(fs, e, c.b, outer);
    Through(c.env, fs.code, stops, c.b, m, c.b, c.s);
    NotStuckThrough(c.env, fs.code, stops, c.b, m, c.b, c.s);
    JoinedRun(c, fs.code, code', stops);
    var om := Run(c.env, fs.code, stops, m, c.b, c.s);
    if om.At? && om.pc == m {
      assert Run(c.env, fs.code, stops, n, n, SetNils(om.regs, p.a, p.n)) == At(n, SetNils(om.regs, p.a, p.n));
      assert Run(c.env, code', stops, n, n, SetNils(om.regs, from', l' - from')) == At(n, SetNils(om.regs, from', l' - from'));
      JoinedNils(om.regs, p.a, p.n, reg, from', l');
    }
  }

  lemma JoinNil(c: Ctx, fs: FS, e: Exp, reg: nat, outer: set<nat>, fr: nat, g: Goal)
    requires Good(c, fs, e, outer, fr, -1, g) && e.kind == VNIL
    requires |fs.code| > fs.lasttarget && fs.code[|fs.code| - 1].LOADNIL?
    requires var p := fs.code[|fs.code| - 1]; p.a <= reg <= p.a + p.n + 1 || reg <= p.a <= reg + 1
    ensures var fs' := LoadNils(fs, reg, 1);
            Good(c, fs', InReg(e, reg), outer, fr, reg, g) && KeepsControls(fs.code, fs'.code, outer)
  {
    var m := |fs.code| - 1;
    var p := fs.code[m];
    var from' := if p.a < reg then p.a else reg;
    var l' := if p.a + p.n > reg then p.a + p.n else reg;
    var fs', e' := LoadNils(fs, reg, 1), InReg(e, reg);
    assert fs' == fs.(code := fs.code[m := LOADNIL(from', l' - from')]);
    JoinedShape(fs, e, fs', e', c.b, outer, LOADNIL(from', l' - from'));
    assert outer + Elems(fs.jpc) + Own(e) == outer + Elems(fs'.jpc) + Own(e');
    var o, o' := Outcomes(c, fs, e, outer), Outcomes(c, fs', e', outer);
    if !(g.Elsewhere? && g.o.Stuck?) {
      OutcomeIsSensible(c, fs, e, outer, fr, -1, g);
      assert fs.jpc == [];
      JoinedRuns(c, fs, e, reg, outer, from', l', fs'.code);
      hide Shaped;
      if g.Wanted? {
        if o.At? && o.pc == |fs.code| { NotBoth(fs, e, outer, g.v, o); }
        else { LeavesStill(fs.code, fs'.code, e, e', outer, g.v, o); }
      }
    }
  }

  lemma LeavesStill(code: seq<Instr>, code': seq<Instr>, e: Exp, e': Exp, outer: set<nat>, v: Option<Value>, o: Outcome)
    requires Leaves(code, e, v, o) && Settled(e) && e'.t == e.t && e'.f == e.f && |code'| >= |code|
    requires KeepsControls(code, code', Own(e))
    ensures Leaves(code', e', v, o)
  {
    match o
    case Taken(j, _) => assert j in Own(e) by { assert j in Elems(e.t) || j in Elems(e.f); }
    case _ =>
  }

  lemma JoinedShape(fs: FS, e: Exp, fs': FS, e': Exp, b: nat, outer: set<nat>, i: Instr)
    requires Shaped(fs, e, b, outer) && e.kind == VNIL && e'.t == e.t && e'.f == e.f && e'.kind == VNONRELOC
    requires |fs.code| > 0 && fs.code[|fs.code| - 1].LOADNIL?
    requires i.LOADNIL? && fs' == fs.(code := fs.code[|fs.code| - 1 := i])
    ensures Shaped(fs', e', b, outer) && KeepsControls(fs.code, fs'.code, outer + Own(e))
  {
    assert Own(e') == Own(e);
    forall q | 0 <= q < |fs'.code| ensures PairedAt(fs'.code, q) { assert PairedAt(fs.code, q); }
    forall q | b <= q < |fs'.code| && q !in outer + Elems(fs.jpc) + Own(e) ensures TargetAt(fs'.code[q], q, fs.lasttarget) {
      assert TargetAt(fs.code[q], q, fs.lasttarget);
    }
  }

  lemma JoinedRun(c: Ctx, code: seq<Instr>, code': seq<Instr>, stops: set<nat>)
    requires |code| > 0 && |code'| == |code| && (forall i :: 0 <= i < |code| - 1 ==> code'[i] == code[i])
    requires !Run(c.env, code, stops, |code|, c.b, c.s).Stuck? && c.b < |code|
    ensures var om := Run(c.env, code, stops, |code| - 1, c.b, c.s);
            !om.Stuck? ==> Run(c.env, code, stops, |code|, c.b, c.s) == Resume(c.env, code, stops, |code|, om) &&
                           Run(c.env, code', stops, |code|, c.b, c.s) == Resume(c.env, code', stops, |code|, om)
  {
    var om := Run(c.env, code, stops, |code| - 1, c.b, c.s);
    if !om.Stuck? {
      assert Alike(code, code', stops, c.b, |code| - 1);
      AlikeRuns(c.env, code, code', stops, |code| - 1, c.b, c.s);
      Continue(c.env, code, stops, |code| - 1, stops, |code|, c.b, c.s);
      Continue(c.env, code', stops, |code| - 1, stops, |code|, c.b, c.s);
    }
  }

  // ----- discharge2reg -----

  lemma VarsMeans(c: Ctx, fs: FS, e: Exp, outer: set<nat>, fr: nat, skip: int, g: Goal)
    requires Good(c, fs, e, outer, fr, skip, g)
    ensures Good(c, fs, DischargeVars(e), outer, fr, skip, g)
  {
    assert Own(DischargeVars(e)) == Own(e);
  }

  // Giving a relocatable instruction its register.
  lemma RelocMeans(c: Ctx, fs: FS, e: Exp, reg: nat, outer: set<nat>, fr: nat, g: Goal)
    requires Good(c, fs, e, outer, fr, -1, g) && e.kind == VRELOCABLE
    ensures var fs' := fs.(code := SetA(fs.code, e.info, reg));
            Good(c, fs', InReg(e, reg), outer, fr, reg, g) && KeepsControls(fs.code, fs'.code, outer)
  {
    var n := |fs.code|;
    var fs', e' := fs.(code := SetA(fs.code, e.info, reg)), InReg(e, reg);
    var stops := outer + Elems(fs.jpc) + Own(e);
    RelocShape(fs, e, reg, c.b, outer);
    if !(g.Elsewhere? && g.o.Stuck?) {
      OutcomeIsSensible(c, fs, e, outer, fr, -1, g);
      assert n - 1 !in stops;
      assert forall j :: j in stops ==> j < n - 1;
      hide Shaped;
      var o := Outcomes(c, fs, e, outer);
      AlikeRuns(c.env, fs.code, fs'.code, stops, n - 1, c.b, c.s);
      Continue(c.env, fs'.code, stops, n - 1, stops, n, c.b, c.s);
      assert outer + Elems(fs'.jpc) + Own(e') == stops;
      if o.At? && o.pc == n - 1 {
        var v := ValueOf(c.env, fs.code[n - 1], o.regs);
        assert v == ValueOf(c.env, fs'.code[n - 1], o.regs);
        if v.Some? { assert Run(c.env, fs'.code, stops, n, n, o.regs[reg := v.value]) == At(n, o.regs[reg := v.value]); }
      }
      if g.Wanted? { RelocLeaves(fs, e, fs'.code, e', outer, g.v, o); }
    }
  }

  lemma RelocShape(fs: FS, e: Exp, reg: nat, b: nat, outer: set<nat>)
    requires Shaped(fs, e, b, outer) && e.kind == VRELOCABLE
    ensures var fs' := fs.(code := SetA(fs.code, e.info, reg));
            Shaped(fs', InReg(e, reg), b, outer) && KeepsControls(fs.code, fs'.code, outer + Own(e))
    ensures Alike(fs.code, SetA(fs.code, e.info, reg), outer + Elems(fs.jpc) + Own(e), b, |fs.code| - 1)
  {
    var fs', e' := fs.(code := SetA(fs.code, e.info, reg)), InReg(e, reg);
    assert Own(e') == Own(e);
    forall i | 0 <= i < |fs'.code| ensures PairedAt(fs'.code, i) { assert PairedAt(fs.code, i); }
    forall i | b <= i < |fs'.code| && i !in outer + Elems(fs.jpc) + Own(e) ensures TargetAt(fs'.code[i], i, fs.lasttarget) {
      assert TargetAt(fs.code[i], i, fs.lasttarget);
    }
    forall i | b <= i < |fs.code| - 1 ensures AlikeAt(fs.code, fs'.code, outer + Elems(fs.jpc) + Own(e), i) {}
  }

  lemma RelocLeaves(fs: FS, e: Exp, code': seq<Instr>, e': Exp, outer: set<nat>, v: Option<Value>, o: Outcome)
    requires e.kind == VRELOCABLE && e'.t == e.t && e'.f == e.f && fs.jpc == []
    requires |code'| == |fs.code| && KeepsControls(fs.code, code', outer + Own(e))
    ensures Leaves(fs.code, e, v, o) ==> Leaves(code', e', v, o)
  {
    match o
    case Taken(j, _) => assert j in e.t || j in e.f ==> j in Own(e) by { assert j in e.t ==> j in Elems(e.t); assert j in e.f ==> j in Elems(e.f); }
    case _ =>
  }

  // discharge2reg
  lemma DischargeMeans(c: Ctx, fs: FS, e0: Exp, reg: nat, outer: set<nat>, fr: nat, g: Goal)
    requires Good(c, fs, e0, outer, fr, -1, g) && e0.kind != VJMP && Discharge2Reg(fs, e0, reg).0.k <= c.env.k
    ensures var (fs', e') := Discharge2Reg(fs, e0, reg);
            e' == InReg(e0, reg) && Good(c, fs', e', outer, fr, reg, g) && KeepsControls(fs.code, fs'.code, outer)
  {
    var e := DischargeVars(e0);
    VarsMeans(c, fs, e0, outer, fr, -1, g);
    hide Good;
    match e.kind
    case VNIL => NilMeans(c, fs, e, reg, outer, fr, g);
    case VFALSE =>
      EmitIsCode(fs, LOADBOOL(reg, false, false), LOADBOOL(reg, false, false));
      EmitLoad(c, fs, e, [LOADBOOL(reg, false, false)], reg, outer, fr, g);
    case VTRUE =>
      EmitIsCode(fs, LOADBOOL(reg, true, false), LOADBOOL(reg, true, false));
      EmitLoad(c, fs, e, [LOADBOOL(reg, true, false)], reg, outer, fr, g);
    case VK => ConstantMeans(c, fs, e, reg, e.info, outer, fr, g);
    case VKNUM =>
      var (fs1, i) := AddK(fs, Num(e.nval));
      MoreConstants(c, fs, fs1.k, e, outer, fr, -1, g);
      assert fs1 == fs.(k := fs1.k);
      CodeKKeepsK(fs1, reg, i);
      ConstantMeans(c, fs1, e, reg, i, outer, fr, g);
    case VRELOCABLE => RelocMeans(c, fs, e, reg, outer, fr, g);
    case VNONRELOC =>
      if reg != e.info {
        EmitIsCode(fs, MOVE(reg, e.info), MOVE(reg, e.info));
        EmitLoad(c, fs, e, [MOVE(reg, e.info)], reg, outer, fr, g);
      } else {
        AlreadyThere(c, fs, e, outer, fr, g);
      }
  }

  lemma AlreadyThere(c: Ctx, fs: FS, e: Exp, outer: set<nat>, fr: nat, g: Goal)
    requires Good(c, fs, e, outer, fr, -1, g) && e.kind == VNONRELOC
    ensures Good(c, fs, InReg(e, e.info), outer, fr, e.info, g) && KeepsControls(fs.code, fs.code, outer)
  {
    assert InReg(e, e.info) == e;
  }

  lemma CodeKKeepsK(fs: FS, reg: nat, k: nat)
    ensures CodeK(fs, reg, k).k == fs.k
  {}

  lemma NilMeans(c: Ctx, fs: FS, e: Exp, reg: nat, outer: set<nat>, fr: nat, g: Goal)
    requires Good(c, fs, e, outer, fr, -1, g) && e.kind == VNIL
    ensures var fs' := LoadNils(fs, reg, 1);
            Good(c, fs', InReg(e, reg), outer, fr, reg, g) && KeepsControls(fs.code, fs'.code, outer)
  {
    hide Good;
    EmitIsCode(fs, LOADNIL(reg, 0), LOADNIL(reg, 0));
    if LoadNils(fs, reg, 1) == Code(fs, LOADNIL(reg, 0)) {
      EmitLoad(c, fs, e, [LOADNIL(reg, 0)], reg, outer, fr, g);
    } else {
      JoinNil(c, fs, e, reg, outer, fr, g);
    }
  }

  lemma ConstantMeans(c: Ctx, fs: FS, e: Exp, reg: nat, k: nat, outer: set<nat>, fr: nat, g: Goal)
    requires Good(c, fs, e, outer, fr, -1, g) && (e.kind == VK || e.kind == VKNUM)
    requires forall r :: Some(KAt(c.env, k)) == EndVal(c.env, fs, e, r)
    ensures var fs' := CodeK(fs, reg, k);
            Good(c, fs', InReg(e, reg), outer, fr, reg, g) && KeepsControls(fs.code, fs'.code, outer)
  {
    hide Good;
    if k <= MAXARG_Bx {
      EmitIsCode(fs, LOADK(reg, k), LOADK(reg, k));
      EmitLoad(c, fs, e, [LOADK(reg, k)], reg, outer, fr, g);
    } else {
      EmitIsCode(fs, LOADKX(reg), EXTRAARG(k));
      EmitLoad(c, fs, e, [LOADKX(reg), EXTRAARG(k)], reg, outer, fr, g);
    }
  }
}
