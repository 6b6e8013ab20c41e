// Conditions: tests and the jumps they control, goiftrue, goiffalse and not.
module LuaCodeConds {
  import opened Common
  import opened LuaMachine
  import opened LuaCodegen
  import opened LuaCodeRuns
  import opened LuaCodeMeaning
  import opened LuaCodeLoads
  import opened LuaCodeClose
  import opened LuaCodePlace
  import opened LuaCodeRegs

  // ----- only the lists -----

  // The jump lists of a descriptor, without a value of its own.
  ghost function Lists(t: seq<nat>, f: seq<nat>): Exp { Exp(VNIL, 0, 0, t, f) }

  // What runs do, with the arrival described by a predicate on registers.
  ghost predicate Runs(c: Ctx, fs: FS, e: Exp, outer: set<nat>, fr: nat, g: Goal, arrival: Regs -> bool) {
    var o := Run(c.env, fs.code, outer + Elems(fs.jpc) + Own(e), |fs.code|, c.b, c.s);
    match g
    case Elsewhere(o0) => o0.Stuck? || o == o0
    case Wanted(r, v) =>
      (Leaves(fs.code, e, v, o) || (Arrived(o, fs.jpc, |fs.code|) && (o.Taken? ==> 0 < o.j) && arrival(o.regs))) &&
      (o.At? || o.Taken? ==> AgreeBut(r, o.regs, fr, -1))
  }

  ghost predicate Conds(c: Ctx, fs: FS, e: Exp, outer: set<nat>, fr: nat, g: Goal, arrival: Regs -> bool) {
    Shaped(fs, e, c.b, outer) && Settled(e) && Runs(c, fs, e, outer, fr, g, arrival) && GoalOK(g, outer, |fs.code|)
  }

  lemma CondsSensible(c: Ctx, fs: FS, e: Exp, outer: set<nat>, fr: nat, g: Goal, arrival: Regs -> bool)
    requires Conds(c, fs, e, outer, fr, g, arrival) && !(g.Elsewhere? && g.o.Stuck?)
    ensures var stops := outer + Elems(fs.jpc) + Own(e);
            Sensible(Run(c.env, fs.code, stops, |fs.code|, c.b, c.s), stops, |fs.code|)
  {
    var o := Run(c.env, fs.code, outer + Elems(fs.jpc) + Own(e), |fs.code|, c.b, c.s);
    if g.Wanted? {
      match o
      case At(pc, _) => assert pc in fs.jpc ==> pc in Elems(fs.jpc);
      case _ =>
    }
  }

  // The meaning of a settled descriptor in this form.
  lemma GoodAsConds(c: Ctx, fs: FS, e: Exp, outer: set<nat>, fr: nat, g: Goal, arrival: Regs -> bool)
    requires Good(c, fs, e, outer, fr, -1, g) && Settled(e)
    requires g.Wanted? ==> forall r :: EndVal(c.env, fs, e, r) == g.v ==> arrival(r)
    ensures Conds(c, fs, Lists(e.t, e.f), outer, fr, g, arrival)
  {
    assert Own(Lists(e.t, e.f)) == Own(e);
  }

  lemma WeakenConds(c: Ctx, fs: FS, e: Exp, outer: set<nat>, fr: nat, g: Goal, arrival: Regs -> bool,
                    arrival': Regs -> bool)
    requires Conds(c, fs, e, outer, fr, g, arrival) && forall r :: arrival(r) ==> arrival'(r)
    ensures Conds(c, fs, e, outer, fr, g, arrival')
  {}

  // ----- emitting -----

  lemma CondsEmit(c: Ctx, fs: FS, e: Exp, tail: seq<Instr>, outer: set<nat>, fr: nat, g: Goal, arrival: Regs -> bool,
                  novel: set<nat>, lim: nat)
    requires Conds(c, fs, e, outer, fr, g, arrival) && !(g.Elsewhere? && g.o.Stuck?)
    requires |fs.code| <= lim <= |fs.code| + |tail| && (forall j :: j in novel ==> |fs.code| <= j)
    requires KeepsControls(fs.code, Emit(fs, tail).code, outer + Own(e))
    ensures var o := Run(c.env, fs.code, outer + Elems(fs.jpc) + Own(e), |fs.code|, c.b, c.s);
            var o' := Run(c.env, Emit(fs, tail).code, outer + Own(e) + novel, lim, c.b, c.s);
            |Emit(fs, tail).code| == |fs.code| + |tail| &&
            if Arrived(o, fs.jpc, |fs.code|) then o' == Run(c.env, Emit(fs, tail).code, outer + Own(e) + novel, lim, |fs.code|, o.regs)
            else o' == o && (g.Wanted? ==> Leaves(Emit(fs, tail).code, e, g.v, o))
    ensures g.Elsewhere? ==> Run(c.env, Emit(fs, tail).code, outer + Own(e) + novel, lim, c.b, c.s) == g.o
  {
    var others := outer + Own(e);
    var code' := Emit(fs, tail).code;
    var n := |fs.code|;
    var o := Run(c.env, fs.code, outer + Elems(fs.jpc) + Own(e), n, c.b, c.s);
    CondsSensible(c, fs, e, outer, fr, g, arrival);
    assert outer + Elems(fs.jpc) + Own(e) == others + Elems(fs.jpc);
    EmitRuns(c.env, fs, tail, others, c.b, c.s, n);
    if Arrived(o, fs.jpc, n) { assert Run(c.env, code', others, n, n, o.regs) == At(n, o.regs); }
    hide Shaped;
    Continue(c.env, code', others, n, others + novel, lim, c.b, c.s);
    if g.Elsewhere? {
      ApartFromJpc(fs, e, c.b, outer);
      NotArrived(fs, outer, g);
    } else if !Arrived(o, fs.jpc, n) {
      StillLeaves(fs.code, code', e, outer, g.v, o);
      OwnTaken(e, fs.code, g.v, o);
    }
  }

  lemma ApartFromJpc(fs: FS, e: Exp, b: nat, outer: set<nat>)
    requires Shaped(fs, e, b, outer)
    ensures outer !! Elems(fs.jpc)
  {}

  lemma OwnTaken(e: Exp, code: seq<Instr>, v: Option<Value>, o: Outcome)
    requires Leaves(code, e, v, o) && Settled(e)
    ensures o.Taken? ==> o.j in Own(e)
    ensures o.Err? || o.Taken?
  {
    match o
    case Taken(j, _) =>
      assert j in e.t ==> j in Elems(e.t);
      assert j in e.f ==> j in Elems(e.f);
    case _ =>
  }

  // ----- a test and its jump -----

  // On arrival with these registers the test jumps exactly if the value's truth is 'cond', and
  // then leaves with that value.
  ghost predicate TestVal(env: Env, test: Instr, r: Regs, v: Option<Value>, cond: bool)
    requires TMode(test)
  {
    v.Some? && Takes(env, test, r) == Some(IsFalse(v.value) == !cond) &&
    (IsFalse(v.value) == !cond ==> if test.TESTSET? then Get(r, test.b) == v.value else v.value == Bool(cond))
  }

  // The list that a jump when 'cond' joins.
  ghost function Joined(e: Exp, j: seq<nat>, cond: bool): Exp {
    if cond then Lists(e.t + j, e.f) else Lists(e.t, e.f + j)
  }

  ghost predicate Truth(v: Option<Value>, flag: bool) { v.Some? && IsFalse(v.value) == !flag }

  lemma TestShape(fs: FS, e: Exp, test: Instr, b: nat, outer: set<nat>, cond: bool)
    requires Shaped(fs, e, b, outer) && Settled(e) && TMode(test)
    ensures var n := |fs.code|; var fs' := Emit(fs, [test, JMP(NO_JUMP)]);
            Shaped(fs', Joined(e, [n + 1], cond), b, outer) && KeepsControls(fs.code, fs'.code, outer + Own(e)) &&
            fs'.jpc == [] && |fs'.code| == n + 2 && fs'.code[n] == test &&
            Own(Joined(e, [n + 1], cond)) == Own(e) + {n + 1}
  {
    hide Shaped, GenOK, ListsApart, Controlled, KeepsControls, Emit;
    var n := |fs.code|;
    var tail := [test, JMP(NO_JUMP)];
    var fs', e' := Emit(fs, tail), Joined(e, [n + 1], cond);
    ShapeParts(fs, e, b, outer);
    TestTail(test, tail, n, fs.lasttarget, {n + 1});
    EmitKeepsShape(fs, e, tail, b, outer, {n + 1});
    assert fs'.code[n + 0] == tail[0] && fs'.code[n + 1] == tail[1];
    JoinedOwn(e, n + 1, cond);
    JoinedApart(fs, e, fs', outer, n + 1, cond);
    assert outer + Own(e) + {n + 1} == outer + Elems(fs'.jpc) + Own(e');
    NowControlled(fs'.code, outer + Own(e), n + 1);
    assert outer + Own(e) + {n + 1} == outer + Own(e');
    ShapeFrom(fs', e', b, outer, outer + Own(e) + {n + 1});
  }

  lemma TestTail(test: Instr, tail: seq<Instr>, n: nat, last: nat, novel: set<nat>)
    requires TMode(test) && tail == [test, JMP(NO_JUMP)] && novel == {n + 1}
    ensures forall t :: 0 <= t < |tail| ==> TailAt(tail, n, last, novel, t)
  {
    assert TailAt(tail, n, last, novel, 0) && TailAt(tail, n, last, novel, 1);
  }

  lemma NowControlled(code: seq<Instr>, js: set<nat>, j: nat)
    requires Controlled(code, js) && 0 < j < |code| && TMode(code[j - 1])
    ensures Controlled(code, js + {j})
  {}

  lemma JoinedApart(fs: FS, e: Exp, fs': FS, outer: set<nat>, j: nat, cond: bool)
    requires ListsApart(fs, e, outer) && Settled(e) && fs'.jpc == []
    requires (forall i :: i in Own(e) ==> i < j) && forall i :: i in outer ==> i < j
    ensures ListsApart(fs', Joined(e, [j], cond), outer)
  {
    JoinedOwn(e, j, cond);
    assert j !in outer && j !in Own(e);
    assert j in e.t ==> j in Elems(e.t);
    assert j in e.f ==> j in Elems(e.f);
  }

  lemma JoinedOwn(e: Exp, j: nat, cond: bool)
    requires Settled(e)
    ensures Own(Joined(e, [j], cond)) == Own(e) + {j}
    ensures cond ==> Elems(Joined(e, [j], cond).t) == Elems(e.t) + {j}
    ensures !cond ==> Elems(Joined(e, [j], cond).f) == Elems(e.f) + {j}
    ensures Distinct(e.t) && Distinct(e.f) && j !in e.t && j !in e.f ==>
              Distinct(Joined(e, [j], cond).t) && Distinct(Joined(e, [j], cond).f)
  {
    assert Elems(e.t + [j]) == Elems(e.t) + {j};
    assert Elems(e.f + [j]) == Elems(e.f) + {j};
  }

  lemma TestRuns(env: Env, code: seq<Instr>, stops: set<nat>, r: Regs, v: Option<Value>, cond: bool)
    requires |code| >= 2 && TMode(code[|code| - 2]) && |code| - 2 !in stops && |code| - 1 in stops
    requires TestVal(env, code[|code| - 2], r, v, cond)
    ensures Run(env, code, stops, |code|, |code| - 2, r) ==
            if IsFalse(v.value) == !cond then Taken(|code| - 1, r) else At(|code|, r)
  {
    var n := |code|;
    assert Run(env, code, stops, n, n, r) == At(n, r);
    assert Run(env, code, stops, n, n - 2, r) == RunTest(env, code, stops, n, n - 2, r);
    assert TakeJump(env, code, stops, n, n - 1, r) == Taken(n - 1, r);
    assert Takes(env, code[n - 2], r).value == (IsFalse(v.value) == !cond);
  }

  // condjump: afterwards a run arrives only with the other truth value.
  lemma TestMeans(c: Ctx, fs: FS, e: Exp, test: Instr, outer: set<nat>, fr: nat, g: Goal, cond: bool,
                  arrival: Regs -> bool)
    requires TMode(test) && Conds(c, fs, e, outer, fr, g, arrival)
    requires forall r :: arrival(r) ==> g.Wanted? && TestVal(c.env, test, r, g.v, cond)
    ensures Conds(c, Emit(fs, [test, JMP(NO_JUMP)]), Joined(e, [|fs.code| + 1], cond), outer, fr, g, _ => g.Wanted? && Truth(g.v, !cond))
    ensures Leads(fs, Emit(fs, [test, JMP(NO_JUMP)]), outer)
  {
    hide Shaped, Emit, KeepsControls, Leaves, Runs;
    var fs', e' := Emit(fs, [test, JMP(NO_JUMP)]), Joined(e, [|fs.code| + 1], cond);
    TestShape(fs, e, test, c.b, outer, cond);
    ShapeParts(fs, e, c.b, outer);
    ShapeParts(fs', e', c.b, outer);
    FewerOuter(fs.code, fs'.code, outer, Own(e));
    TestRunsMean(c, fs, e, test, outer, fr, g, cond, arrival);
  }

  lemma TestRunsMean(c: Ctx, fs: FS, e: Exp, test: Instr, outer: set<nat>, fr: nat, g: Goal, cond: bool,
                     arrival: Regs -> bool)
    requires TMode(test) && Conds(c, fs, e, outer, fr, g, arrival)
    requires forall r :: arrival(r) ==> g.Wanted? && TestVal(c.env, test, r, g.v, cond)
    ensures Runs(c, Emit(fs, [test, JMP(NO_JUMP)]), Joined(e, [|fs.code| + 1], cond), outer, fr, g, _ => g.Wanted? && Truth(g.v, !cond))
  {
    hide Shaped, Emit, KeepsControls, Leaves, TestVal, Truth, GenOK, ListsApart, Controlled, Run;
    var n := |fs.code|;
    var tail := [test, JMP(NO_JUMP)];
    var fs', e' := Emit(fs, tail), Joined(e, [n + 1], cond);
    TestShape(fs, e, test, c.b, outer, cond);
    ShapeParts(fs, e, c.b, outer);
    if !(g.Elsewhere? && g.o.Stuck?) {
      CondsEmit(c, fs, e, tail, outer, fr, g, arrival, {n + 1}, n + 2);
      var stops' := outer + Own(e) + {n + 1};
      assert stops' == outer + Elems(fs'.jpc) + Own(e');
      var o := Run(c.env, fs.code, outer + Elems(fs.jpc) + Own(e), n, c.b, c.s);
      if g.Wanted? {
        if Arrived(o, fs.jpc, n) {
          ArrivedNotLeft(fs, e, c.b, outer, g.v, o);
          assert |fs'.code| - 2 == n;
          TestArrives(c.env, fs'.code, e, stops', o.regs, g.v, cond);
        } else {
          LeavesJoined(fs'.code, e, n + 1, cond, g.v, o);
        }
      }
    }
  }

  lemma ArrivedNotLeft(fs: FS, e: Exp, b: nat, outer: set<nat>, v: Option<Value>, o: Outcome)
    requires Shaped(fs, e, b, outer) && Settled(e) && Arrived(o, fs.jpc, |fs.code|)
    ensures !Leaves(fs.code, e, v, o)
  {
    NotBoth(fs, e, outer, v, o);
  }

  lemma TestArrives(env: Env, code: seq<Instr>, e: Exp, stops: set<nat>, r: Regs, v: Option<Value>, cond: bool)
    requires |code| >= 2 && TMode(code[|code| - 2]) && |code| - 2 !in stops && |code| - 1 in stops
    requires TestVal(env, code[|code| - 2], r, v, cond)
    ensures var o := Run(env, code, stops, |code|, |code| - 2, r);
            (o == At(|code|, r) && Truth(v, !cond)) ||
            (o == Taken(|code| - 1, r) && Leaves(code, Joined(e, [|code| - 1], cond), v, o))
  {
    TestRuns(env, code, stops, r, v, cond);
    if IsFalse(v.value) == !cond { TestLeaves(code, e, cond, r, v); }
  }

  lemma TestLeaves(code: seq<Instr>, e: Exp, cond: bool, r: Regs, v: Option<Value>)
    requires |code| >= 2 && v.Some? && IsFalse(v.value) == !cond
    requires if code[|code| - 2].TESTSET? then Get(r, code[|code| - 2].b) == v.value else v.value == Bool(cond)
    ensures Leaves(code, Joined(e, [|code| - 1], cond), v, Taken(|code| - 1, r))
  {}

  lemma LeavesJoined(code: seq<Instr>, e: Exp, j: nat, cond: bool, v: Option<Value>, o: Outcome)
    requires Leaves(code, e, v, o) && Settled(e)
    ensures Leaves(code, Joined(e, [j], cond), v, o)
  {}

  // ----- jumponcond -----

  lemma TestSetVal(env: Env, reg: nat, r: Regs, v: Option<Value>, cond: bool)
    requires Some(Get(r, reg)) == v
    ensures TestVal(env, TESTSET(NO_REG, reg, cond), r, v, cond)
  {}

  // The operand of a trailing NOT is tested instead, the other way round.
  lemma TestNotVal(env: Env, i: Instr, r: Regs, v: Option<Value>, cond: bool)
    requires i.NOT? && ValueOf(env, i, r) == v
    ensures TestVal(env, TEST(i.b, !cond), r, v, cond)
  {}

  // 'fs->pc--': without its last instruction, the code of a relocatable expression is code that
  // arrives just before it.
  ghost function Shorter(fs: FS): FS
    requires |fs.code| > 0
  {
    fs.(code := fs.code[..|fs.code| - 1])
  }

  lemma ShorterShape(fs: FS, e: Exp, b: nat, outer: set<nat>)
    requires Shaped(fs, e, b, outer) && e.kind == VRELOCABLE
    ensures Shaped(Shorter(fs), Lists(e.t, e.f), b, outer) && KeepsControls(fs.code, Shorter(fs).code, outer + Own(e))
  {
    var fs1, e1 := Shorter(fs), Lists(e.t, e.f);
    var n := |fs.code|;
    var pend := outer + Elems(fs.jpc) + Own(e);
    assert Own(e1) == Own(e);
    assert forall j :: j in pend ==> j < n - 1;
    forall i | 0 <= i < n - 1 ensures PairedAt(fs1.code, i) { assert PairedAt(fs.code, i); }
    forall i | b <= i < n - 1 && i !in pend ensures TargetAt(fs1.code[i], i, fs.lasttarget) {
      assert TargetAt(fs.code[i], i, fs.lasttarget);
    }
    assert Controlled(fs1.code, outer) && Controlled(fs1.code, Own(e1));
  }

  lemma ShorterMeans(c: Ctx, fs: FS, e: Exp, outer: set<nat>, fr: nat, g: Goal, cond: bool, arrival: Regs -> bool)
    requires Good(c, fs, e, outer, fr, -1, g) && e.kind == VRELOCABLE && fs.code[e.info].NOT?
    requires forall r :: g.Wanted? && TestVal(c.env, TEST(fs.code[e.info].b, !cond), r, g.v, cond) ==> arrival(r)
    ensures Conds(c, Shorter(fs), Lists(e.t, e.f), outer, fr, g, arrival)
    ensures KeepsControls(fs.code, Shorter(fs).code, outer)
  {
    var fs1, e1 := Shorter(fs), Lists(e.t, e.f);
    var n := |fs.code|;
    var stops := outer + Elems(fs.jpc) + Own(e);
    ShorterShape(fs, e, c.b, outer);
    assert stops == outer + Elems(fs1.jpc) + Own(e1);
    if !(g.Elsewhere? && g.o.Stuck?) {
      OutcomeIsSensible(c, fs, e, outer, fr, -1, g);
      ShapeParts(fs1, e1, c.b, outer);
      hide Shaped;
      forall i | c.b <= i < n - 1 ensures AlikeAt(fs.code, fs1.code, stops, i) {}
      AlikeRuns(c.env, fs.code, fs1.code, stops, n - 1, c.b, c.s);
      var o := Outcomes(c, fs, e, outer);
      if g.Wanted? {
        if Ends(c.env, fs, e, g.v, o) {
          TestNotVal(c.env, fs.code[e.info], o.regs, g.v, cond);
        } else {
          LeavesShorter(fs.code, fs1.code, e, e1, outer, g.v, o);
        }
      }
    }
  }

  lemma LeavesShorter(code: seq<Instr>, code': seq<Instr>, e: Exp, e': Exp, outer: set<nat>, v: Option<Value>,
                      o: Outcome)
    requires Leaves(code, e, v, o) && e.kind != VJMP && e'.t == e.t && e'.f == e.f
    requires KeepsControls(code, code', outer + Own(e)) && forall j :: j in Own(e) ==> j <= |code'|
    ensures Leaves(code', e', v, o)
  {
    match o
    case Taken(j, _) =>
      assert j in e.t ==> j in Elems(e.t);
      assert j in e.f ==> j in Elems(e.f);
    case _ =>
  }

  // A condition: lists only, and arriving tells the truth value.
  ghost predicate Tested(c: Ctx, fs: FS, e: Exp, outer: set<nat>, base: nat, g: Goal, flag: bool) {
    Conds(c, fs, e, outer, base, g, _ => g.Wanted? && Truth(g.v, flag)) && fs.freereg == base && fs.nactvar <= base
  }

  lemma JumpOnNot(c: Ctx, fs: FS, e: Exp, outer: set<nat>, base: nat, g: Goal, cond: bool)
    requires Ready(c, fs, e, outer, base, g) && e.kind == VRELOCABLE && fs.code[e.info].NOT?
    ensures var (fs', pc) := JumpOnCond(fs, e, cond);
            Tested(c, fs', Joined(e, pc, cond), outer, base, g, !cond) && Leads(fs, fs', outer)
  {
    var arrival := r => g.Wanted? && TestVal(c.env, TEST(fs.code[e.info].b, !cond), r, g.v, cond);
    var test := TEST(fs.code[e.info].b, !cond);
    var fs1, e1 := Shorter(fs), Lists(e.t, e.f);
    ShorterMeans(c, fs, e, outer, base, g, cond, arrival);
    EmitIsCode(fs1, test, test);
    TestMeans(c, fs1, e1, test, outer, base, g, cond, arrival);
    assert JumpOnCond(fs, e, cond) == CondJump(fs1, test);
    var (fs', pc) := JumpOnCond(fs, e, cond);
    assert Joined(e, pc, cond) == Joined(e1, pc, cond);
    CondsLead(c, fs, fs1, e1, outer, base, g, arrival);
    LeadsTrans(fs, fs1, fs', outer);
  }

  lemma CondsLead(c: Ctx, fs: FS, fs': FS, e': Exp, outer: set<nat>, fr: nat, g: Goal, arrival: Regs -> bool)
    requires Conds(c, fs', e', outer, fr, g, arrival) && KeepsControls(fs.code, fs'.code, outer)
    ensures Leads(fs, fs', outer)
  {}

  // discharge2anyreg, keeping the lists
  lemma AnyRegKeepsLists(c: Ctx, fs: FS, e: Exp, outer: set<nat>, base: nat, g: Goal)
    requires Ready(c, fs, e, outer, base, g) && e.kind != VJMP && e.kind != VLOCAL
    requires Discharge2AnyReg(fs, e).0.ok && Discharge2AnyReg(fs, e).0.k <= c.env.k
    ensures var (fs1, e1) := Discharge2AnyReg(fs, e);
            Ready(c, fs1, e1, outer, base, g) && e1 == InReg(e, e1.info) && Leads(fs, fs1, outer)
  {
    hide Good, Leads, Discharge2Reg;
    StackFits(c, fs, e, outer, base, -1, g);
    if e.kind == VNONRELOC {
      SameLeads(c, fs, e, outer, base, -1, g);
    } else {
      var fs1 := ReserveRegs(fs, 1);
      SetFreereg(c, fs, e, outer, base, -1, g, base + 1, fs1.maxstack, fs1.ok);
      assert fs1 == fs.(freereg := base + 1, maxstack := fs1.maxstack, ok := fs1.ok);
      DischargeMeans(c, fs1, e, base, outer, base, g);
      var (fs2, e2) := Discharge2Reg(fs1, e, base);
      SkipAbove(c, fs2, e2, outer, base, base, g);
      GoodLeads(c, fs1, fs2, e2, outer, base, -1, g);
      LeadsFrom(fs, fs1, fs2, outer);
    }
  }

  // freeexp on a finished descriptor gives its register back; this is where the source asserts
  // that registers are freed in stack order.
  lemma FreeMeans(c: Ctx, fs: FS, e: Exp, outer: set<nat>, base: nat, g: Goal)
    requires Ready(c, fs, e, outer, base, g) && fs.ok
    ensures FreeExp(fs, e) == fs.(freereg := base) && Good(c, FreeExp(fs, e), e, outer, base, -1, g)
    ensures e.kind == VNONRELOC && e.info >= fs.nactvar ==> e.info == FreeExp(fs, e).freereg
  {
    StackFits(c, fs, e, outer, base, -1, g);
    hide Good;
    assert FreeExp(fs, e) == fs.(freereg := base);
    SetFreereg(c, fs, e, outer, base, -1, g, base, fs.maxstack, fs.ok);
  }

  lemma JumpOnValue(c: Ctx, fs: FS, e: Exp, outer: set<nat>, base: nat, g: Goal, cond: bool)
    requires Ready(c, fs, e, outer, base, g) && e.kind != VJMP && e.kind != VLOCAL
    requires !(e.kind == VRELOCABLE && fs.code[e.info].NOT?)
    requires JumpOnCond(fs, e, cond).0.ok && JumpOnCond(fs, e, cond).0.k <= c.env.k
    ensures var (fs', pc) := JumpOnCond(fs, e, cond);
            Tested(c, fs', Joined(e, pc, cond), outer, base, g, !cond) && Leads(fs, fs', outer)
  {
    hide Good, Leads, Discharge2AnyReg;
    var (fs1, e1) := Discharge2AnyReg(fs, e);
    assert JumpOnCond(fs, e, cond) == CondJump(FreeExp(fs1, e1), TESTSET(NO_REG, e1.info, cond)) by { InfoInCode(c, fs, e, outer, base, g); }
    AnyRegKeepsLists(c, fs, e, outer, base, g);
    FreeMeans(c, fs1, e1, outer, base, g);
    var fs2 := FreeExp(fs1, e1);
    var test := TESTSET(NO_REG, e1.info, cond);
    var arrival := r => g.Wanted? && TestVal(c.env, test, r, g.v, cond);
    forall r | g.Wanted? && EndVal(c.env, fs2, e1, r) == g.v ensures arrival(r) { TestSetVal(c.env, e1.info, r, g.v, cond); }
    GoodAsConds(c, fs2, e1, outer, base, g, arrival);
    EmitIsCode(fs2, test, test);
    TestMeans(c, fs2, Lists(e1.t, e1.f), test, outer, base, g, cond, arrival);
    var (fs', pc) := JumpOnCond(fs, e, cond);
    assert Joined(e, pc, cond) == Joined(Lists(e1.t, e1.f), pc, cond);
    LeadsFrom(fs1, fs2, fs', outer);
    LeadsTrans(fs, fs1, fs', outer);
  }

  lemma InfoInCode(c: Ctx, fs: FS, e: Exp, outer: set<nat>, base: nat, g: Goal)
    requires Ready(c, fs, e, outer, base, g)
    ensures e.kind == VRELOCABLE ==> e.info < |fs.code|
  {}

  // ----- inverting a comparison -----

  lemma InvertShape(fs: FS, e: Exp, b: nat, outer: set<nat>)
    requires Shaped(fs, e, b, outer) && e.kind == VJMP
    ensures InvertJump(fs, e) == fs.(code := fs.code[|fs.code| - 2 := Inverted(fs.code[|fs.code| - 2])])
    ensures Shaped(InvertJump(fs, e), e, b, outer)
    ensures KeepsControls(fs.code, InvertJump(fs, e).code, outer + Elems(e.t) + Elems(e.f))
  {
    var n := |fs.code|;
    var fs' := InvertJump(fs, e);
    assert Control(fs.code, e.info) == n - 2;
    forall i | 0 <= i < n ensures PairedAt(fs'.code, i) { assert PairedAt(fs.code, i); }
    forall i | b <= i < n && i !in outer + Elems(fs.jpc) + Own(e) ensures TargetAt(fs'.code[i], i, fs.lasttarget) {
      assert TargetAt(fs.code[i], i, fs.lasttarget);
    }
    forall j | j in outer + Elems(e.t) + Elems(e.f) ensures fs'.code[j - 1] == fs.code[j - 1] {
      assert j != n - 1;
    }
  }

  // Up to the comparison nothing changes, and no jump passes it by.
  lemma BeforeComparison(fs: FS, e: Exp, b: nat, outer: set<nat>)
    requires Shaped(fs, e, b, outer) && e.kind == VJMP
    ensures |fs.code| >= 2 && b <= |fs.code| - 2
    ensures var n := |fs.code|; var m := n - 2; var stops := outer + Elems(fs.jpc) + Own(e); var code' := InvertJump(fs, e).code;
            fs.code[m].CMP? && InvertJump(fs, e) == fs.(code := fs.code[m := Inverted(fs.code[m])]) &&
            m !in stops && n - 1 in stops && n !in stops && Entry(fs.code, m) &&
            Alike(fs.code, code', stops, b, m) &&
            forall i :: b <= i < m && i !in stops ==> StopsShort(fs.code, i, m)
  {
    var n := |fs.code|;
    var m := n - 2;
    var stops := outer + Elems(fs.jpc) + Own(e);
    InvertShape(fs, e, b, outer);
    forall i | b <= i < m && i !in stops ensures StopsShort(fs.code, i, m) {
      assert PairedAt(fs.code, i) && TargetAt(fs.code[i], i, fs.lasttarget);
    }
    assert n - 1 in stops;
  }

  // The inverted test jumps where the other fell through, and the other way round.
  lemma InvertRuns(c: Ctx, fs: FS, e: Exp, outer: set<nat>)
    requires Shaped(fs, e, c.b, outer) && e.kind == VJMP && !Outcomes(c, fs, e, outer).Stuck?
    ensures var n := |fs.code|; var o := Outcomes(c, fs, e, outer); var o' := Outcomes(c, InvertJump(fs, e), e, outer);
            match o
            case At(pc, r) => if pc == n then o' == Taken(n - 1, r) else o' == o
            case Taken(j, r) => if j == n - 1 then o' == At(n, r) else o' == o
            case _ => o' == o
  {
    hide Shaped, Alike, StopsShort, InvertJump, Own, Elems, Entry;
    var n := |fs.code|;
    var m := n - 2;
    var stops := outer + Elems(fs.jpc) + Own(e);
    var code' := InvertJump(fs, e).code;
    BeforeComparison(fs, e, c.b, outer);
    Through(c.env, fs.code, stops, c.b, m, c.b, c.s);
    NotStuckThrough(c.env, fs.code, stops, c.b, m, c.b, c.s);
    AlikeRuns(c.env, fs.code, code', stops, m, c.b, c.s);
    Continue(c.env, fs.code, stops, m, stops, n, c.b, c.s);
    Continue(c.env, code', stops, m, stops, n, c.b, c.s);
    var om := Run(c.env, fs.code, stops, m, c.b, c.s);
    if om.At? && om.pc == m { InvertedTest(c.env, fs.code, code', stops, om.regs); }
  }

  lemma InvertedTest(env: Env, code: seq<Instr>, code': seq<Instr>, stops: set<nat>, r: Regs)
    requires |code| >= 2 && code[|code| - 2].CMP? && code' == code[|code| - 2 := Inverted(code[|code| - 2])]
    requires |code| - 2 !in stops && |code| - 1 in stops
    ensures var n := |code|; var o := Run(env, code, stops, n, n - 2, r); var o' := Run(env, code', stops, n, n - 2, r);
            (o == Err && o' == Err) || (o == At(n, r) && o' == Taken(n - 1, r)) ||
            (o == Taken(n - 1, r) && o' == At(n, r))
  {
    var n := |code|;
    assert Run(env, code, stops, n, n, r) == At(n, r) && Run(env, code', stops, n, n, r) == At(n, r);
    assert TakeJump(env, code, stops, n, n - 1, r) == Taken(n - 1, r);
    assert TakeJump(env, code', stops, n, n - 1, r) == Taken(n - 1, r);
    assert Run(env, code, stops, n, n - 2, r) == RunTest(env, code, stops, n, n - 2, r);
    assert Run(env, code', stops, n, n - 2, r) == RunTest(env, code', stops, n, n - 2, r);
  }

  // ----- goiftrue and goiffalse -----

  lemma LinkConds(c: Ctx, fs: FS, e: Exp, outer: set<nat>, fr: nat, g: Goal, arrival: Regs -> bool, pc: nat, dest: int)
    requires Conds(c, fs, e, outer, fr, g, arrival) && pc in outer + Elems(fs.jpc) + Own(e)
    ensures Conds(c, FixJump(fs, pc, dest), e, outer, fr, g, arrival)
    ensures KeepsControls(fs.code, FixJump(fs, pc, dest).code, outer + Own(e))
  {
    var fs' := FixJump(fs, pc, dest);
    var stops := outer + Elems(fs.jpc) + Own(e);
    LinkShape(fs, e, c.b, outer, pc, dest);
    if !(g.Elsewhere? && g.o.Stuck?) {
      CondsSensible(c, fs, e, outer, fr, g, arrival);
      AlikeRuns(c.env, fs.code, fs'.code, stops, |fs.code|, c.b, c.s);
      var o := Run(c.env, fs.code, stops, |fs.code|, c.b, c.s);
      hide Shaped, Run;
      if g.Wanted? && Leaves(fs.code, e, g.v, o) { StillLeaves(fs.code, fs'.code, e, outer, g.v, o); }
    }
  }

  lemma ConcatConds(c: Ctx, fs: FS, e: Exp, outer: set<nat>, fr: nat, g: Goal, arrival: Regs -> bool, l1: seq<nat>,
                    l2: seq<nat>)
    requires Conds(c, fs, e, outer, fr, g, arrival) && Elems(l1) <= outer + Elems(fs.jpc) + Own(e)
    ensures Conds(c, Concat(fs, l1, l2), e, outer, fr, g, arrival)
    ensures KeepsControls(fs.code, Concat(fs, l1, l2).code, outer + Own(e))
    ensures var fs' := Concat(fs, l1, l2); fs' == fs.(code := fs'.code, ok := fs'.ok) && |fs'.code| == |fs.code|
  {
    if l1 != [] && l2 != [] {
      assert l1[|l1| - 1] in Elems(l1);
      LinkConds(c, fs, e, outer, fr, g, arrival, l1[|l1| - 1], l2[0]);
    }
  }

  // The exits that agree with 'flag' now lead here.
  ghost function Here(e: Exp, flag: bool): seq<nat> { if flag then e.t else e.f }
  ghost function There(e: Exp, flag: bool): Exp { if flag then Lists([], e.f) else Lists(e.t, []) }

  lemma HereShape(fs: FS, e: Exp, b: nat, outer: set<nat>, flag: bool)
    requires Shaped(fs, e, b, outer) && Settled(e)
    ensures Shaped(fs.(jpc := fs.jpc + Here(e, flag), lasttarget := |fs.code|), There(e, flag), b, outer)
    ensures outer + Elems(fs.jpc + Here(e, flag)) + Own(There(e, flag)) == outer + Elems(fs.jpc) + Own(e)
  {
    var here := Here(e, flag);
    var fs' := fs.(jpc := fs.jpc + here, lasttarget := |fs.code|);
    assert Elems(fs'.jpc) == Elems(fs.jpc) + Elems(here);
    assert Distinct(fs'.jpc) by {
      forall i, j | 0 <= i < j < |fs'.jpc| ensures fs'.jpc[i] != fs'.jpc[j] {
        if i < |fs.jpc| <= j { assert fs.jpc[i] in Elems(fs.jpc) && here[j - |fs.jpc|] in Elems(here); }
      }
    }
    forall i | b <= i < |fs.code| && i !in outer + Elems(fs.jpc) + Own(e) ensures TargetAt(fs.code[i], i, |fs.code|) {
      assert TargetAt(fs.code[i], i, fs.lasttarget);
    }
  }

  lemma HereMeans(c: Ctx, fs: FS, e: Exp, outer: set<nat>, base: nat, g: Goal, flag: bool)
    requires Tested(c, fs, e, outer, base, g, flag)
    ensures Tested(c, fs.(jpc := fs.jpc + Here(e, flag), lasttarget := |fs.code|), There(e, flag), outer, base, g, flag)
  {
    var fs' := fs.(jpc := fs.jpc + Here(e, flag), lasttarget := |fs.code|);
    HereShape(fs, e, c.b, outer, flag);
    hide Shaped, Run;
    var o := Run(c.env, fs.code, outer + Elems(fs.jpc) + Own(e), |fs.code|, c.b, c.s);
    if g.Wanted? {
      match o
      case Taken(j, r) =>
        assert j in Here(e, flag) ==> j in fs'.jpc;
        assert j in fs.jpc ==> j in fs'.jpc;
      case At(pc, r) => assert pc in fs.jpc ==> pc in fs'.jpc;
      case _ =>
    }
  }

  // Lists linked behind one another, then the agreeing exits lead here.
  lemma CloseCondition(c: Ctx, fs: FS, e: Exp, pc: seq<nat>, outer: set<nat>, base: nat, g: Goal, flag: bool)
    requires Tested(c, fs, Joined(e, pc, !flag), outer, base, g, flag)
    ensures var fs' := PatchToHere(Concat(fs, if flag then e.f else e.t, pc), Here(e, flag));
            Tested(c, fs', There(Joined(e, pc, !flag), flag), outer, base, g, flag) &&
            KeepsControls(fs.code, fs'.code, outer) && |fs'.code| == |fs.code|
  {
    var e1 := Joined(e, pc, !flag);
    var l1 := if flag then e.f else e.t;
    var arrival := (_: Regs) => g.Wanted? && Truth(g.v, flag);
    assert Elems(l1) <= Elems(if flag then e1.f else e1.t) by { assert forall j :: j in l1 ==> j in l1 + pc; }
    hide Shaped, Runs, Leads;
    WeakenConds(c, fs, e1, outer, base, g, _ => g.Wanted? && Truth(g.v, flag), arrival);
    ConcatConds(c, fs, e1, outer, base, g, arrival, l1, pc);
    var fs1 := Concat(fs, l1, pc);
    WeakenConds(c, fs1, e1, outer, base, g, arrival, _ => g.Wanted? && Truth(g.v, flag));
    HereMeans(c, fs1, e1, outer, base, g, flag);
    var fs2 := fs1.(jpc := fs1.jpc + Here(e1, flag), lasttarget := |fs1.code|);
    var e2 := There(e1, flag);
    WeakenConds(c, fs2, e2, outer, base, g, _ => g.Wanted? && Truth(g.v, flag), arrival);
    assert Elems(fs1.jpc) <= Elems(fs2.jpc) by { assert forall j :: j in fs1.jpc ==> j in fs2.jpc; }
    ConcatConds(c, fs2, e2, outer, base, g, arrival, fs1.jpc, Here(e1, flag));
    var fs3 := Concat(fs2, fs1.jpc, Here(e1, flag));
    WeakenConds(c, fs3, e2, outer, base, g, arrival, _ => g.Wanted? && Truth(g.v, flag));
    assert Here(e1, flag) == Here(e, flag);
    assert fs3 == PatchToHere(fs1, Here(e, flag));
    FewerOuter(fs.code, fs1.code, outer, Own(e1));
    FewerOuter(fs2.code, fs3.code, outer, Own(e2));
  }
}
