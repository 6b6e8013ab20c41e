// exp2reg and its callers: where values are placed, and the register discipline.
module LuaCodePlace {
  import opened Common
  import opened LuaMachine
  import opened LuaCodegen
  import opened LuaCodeRuns
  import opened LuaCodeMeaning
  import opened LuaCodeLoads
  import opened LuaCodeClose

  // ----- the two loads that exp2reg may add -----

  // After a comparison: those that do not jump fall into the load of false.
  ghost function WithLoads(fs: FS, reg: nat): FS {
    fs.(code := fs.code + [LOADBOOL(reg, false, true), LOADBOOL(reg, true, false)], lasttarget := |fs.code| + 2)
  }

  lemma WithLoadsIs(fs: FS, reg: nat)
    requires fs.jpc == []
    ensures PatchToHere(CodeLabel(CodeLabel(fs, reg, false, true), reg, true, false), []) == WithLoads(fs, reg)
    ensures |CodeLabel(fs, reg, false, true).code| == |fs.code| + 1
  {
    assert fs.code + [LOADBOOL(reg, false, true)] + [LOADBOOL(reg, true, false)] ==
           fs.code + [LOADBOOL(reg, false, true), LOADBOOL(reg, true, false)];
  }

  lemma WithLoadsMeans(c: Ctx, fs: FS, e: Exp, reg: nat, outer: set<nat>, fr: nat, g: Goal)
    requires Good(c, fs, e, outer, fr, -1, g) && e.kind == VFALSE && fs.jpc == []
    ensures Good(c, WithLoads(fs, reg), InReg(e, reg), outer, fr, reg, g)
    ensures KeepsControls(fs.code, WithLoads(fs, reg).code, outer)
  {
    var n := |fs.code|;
    var fs', e' := WithLoads(fs, reg), InReg(e, reg);
    var stops := outer + Elems(fs.jpc) + Own(e);
    assert Own(e') == Own(e) && outer + Elems(fs'.jpc) + Own(e') == stops;
    AppendShape(fs, e, fs', e', c.b, outer);
    assert forall j :: j in stops ==> j < n;
    hide ListsApart, KindOK, GenOK, Controlled;
    if !(g.Elsewhere? && g.o.Stuck?) {
      OutcomeIsSensible(c, fs, e, outer, fr, -1, g);
      hide Shaped;
      AppendRuns(c, fs.code, fs'.code, stops, stops);
      var o := Outcomes(c, fs, e, outer);
      if g.Wanted? && Ends(c.env, fs, e, g.v, o) {
        FallIntoFalse(c.env, fs'.code, stops, reg, o.regs);
      } else if g.Wanted? {
        ResumeLeaving(c.env, fs, e, fs'.code, outer, stops, n + 2, g.v, o);
        LeavesIn(fs.code, e, fs'.code, e', outer, g.v, o);
      } else {
        NotArrived(fs, outer, g);
      }
    }
  }

  lemma FallIntoFalse(env: Env, code: seq<Instr>, stops: set<nat>, reg: nat, r: Regs)
    requires |code| >= 2 && code[|code| - 2] == LOADBOOL(reg, false, true) && |code| - 2 !in stops
    ensures Run(env, code, stops, |code|, |code| - 2, r) == At(|code|, r[reg := Bool(false)])
  {
    assert Run(env, code, stops, |code|, |code|, r[reg := Bool(false)]) == At(|code|, r[reg := Bool(false)]);
  }

  // Code appended without patching anything.
  lemma AppendRuns(c: Ctx, code: seq<Instr>, code': seq<Instr>, stops: set<nat>, stops': set<nat>)
    requires code <= code' && (forall j :: j in stops' && j < |code| ==> j in stops)
    requires !Run(c.env, code, stops, |code|, c.b, c.s).Stuck?
    ensures Run(c.env, code', stops', |code'|, c.b, c.s) ==
            Resume(c.env, code', stops', |code'|, Run(c.env, code, stops, |code|, c.b, c.s))
  {
    assert Alike(code, code', stops, c.b, |code|);
    AlikeRuns(c.env, code, code', stops, |code|, c.b, c.s);
    Continue(c.env, code', stops, |code|, stops', |code'|, c.b, c.s);
  }

  // A run that has left is not resumed while its jump stays pending.
  lemma ResumeLeaving(env: Env, fs: FS, e: Exp, code': seq<Instr>, outer: set<nat>, stops': set<nat>, lim: nat,
                      v: Option<Value>, o: Outcome)
    requires Leaves(fs.code, e, v, o) && Settled(e) && |fs.code| <= lim <= |code'| && Elems(e.t) + Elems(e.f) <= stops'
    ensures Resume(env, code', stops', lim, o) == o
  {
    match o
    case Taken(j, _) =>
      assert j in e.t ==> j in Elems(e.t);
      assert j in e.f ==> j in Elems(e.f);
    case _ =>
  }

  lemma LeavesIn(code: seq<Instr>, e: Exp, code': seq<Instr>, e': Exp, outer: set<nat>, v: Option<Value>, o: Outcome)
    requires Leaves(code, e, v, o) && Settled(e) && e'.t == e.t && e'.f == e.f && |code'| >= |code|
    requires KeepsControls(code, code', outer + Own(e))
    ensures Leaves(code', e', v, o)
  {
    StillLeaves(code, code', e, outer, v, o);
  }

  // A shape with instructions appended and a label after them.
  lemma AppendShape(fs: FS, e: Exp, fs': FS, e': Exp, b: nat, outer: set<nat>)
    requires Shaped(fs, e, b, outer) && Settled(e) && Settled(e') && e'.kind != VK && e'.t == e.t && e'.f == e.f
    requires fs.code <= fs'.code && fs' == fs.(code := fs'.code, jpc := fs'.jpc, lasttarget := |fs'.code|, ok := fs'.ok)
    requires Distinct(fs'.jpc) && Jumps(fs'.code, Elems(fs'.jpc)) && Elems(fs.jpc) <= Elems(fs'.jpc)
    requires forall j :: j in fs'.jpc && j !in fs.jpc ==> j >= |fs.code|
    requires forall i :: |fs.code| <= i < |fs'.code| ==>
               PairedAt(fs'.code, i) && (i in Elems(fs'.jpc) || TargetAt(fs'.code[i], i, |fs'.code|))
    requires (fs'.ok ==> fs.ok)
    ensures Shaped(fs', e', b, outer) && KeepsControls(fs.code, fs'.code, outer + Own(e))
  {
    assert Own(e') == Own(e);
    forall i | 0 <= i < |fs'.code| ensures PairedAt(fs'.code, i) {
      if i < |fs.code| { assert PairedAt(fs.code, i); }
    }
    forall i | b <= i < |fs'.code| && i !in outer + Elems(fs'.jpc) + Own(e') ensures TargetAt(fs'.code[i], i, |fs'.code|) {
      if i < |fs.code| { assert TargetAt(fs.code[i], i, fs.lasttarget); }
    }
    forall j | j in Elems(fs'.jpc) ensures j !in outer && j !in Own(e) {
      if j in fs.jpc { assert j in Elems(fs.jpc); }
    }
  }

  // After a value that is in place: a jump over the two loads, which takes the waiting jumps along.
  ghost function WithBypass(fs: FS, link: int, reg: nat): FS {
    fs.(code := fs.code + [JMP(link), LOADBOOL(reg, false, true), LOADBOOL(reg, true, false)],
        jpc := [|fs.code|] + fs.jpc, lasttarget := |fs.code| + 3)
  }

  lemma WithBypassIs(fs: FS, reg: nat)
    ensures var (fs1, fj) := Jump(fs);
            var fs2 := CodeLabel(fs1, reg, false, true);
            var fs4 := PatchToHere(CodeLabel(fs2, reg, true, false), fj);
            |fs1.code| == |fs.code| + 1 && |fs2.code| == |fs.code| + 2 &&
            exists link: int, ok: bool :: fs4 == WithBypass(fs, link, reg).(ok := ok) && (ok ==> fs.ok)
  {
    var (fs1, fj) := Jump(fs);
    var n := |fs.code|;
    assert fj == [n] + fs.jpc;
    assert |fs1.code| == n + 1 && fs1.code[..n] == fs.code && fs1.code[n].JMP? && fs1.jpc == [];
    var link := fs1.code[n].sbx;
    assert fs1.code == fs.code + [JMP(link)];
    var fs2 := CodeLabel(fs1, reg, false, true);
    assert fs2.code == fs.code + [JMP(link)] + [LOADBOOL(reg, false, true)];
    var fs3 := CodeLabel(fs2, reg, true, false);
    assert fs3.code == fs.code + [JMP(link), LOADBOOL(reg, false, true), LOADBOOL(reg, true, false)];
    var fs4 := PatchToHere(fs3, fj);
    assert fs4 == WithBypass(fs, link, reg).(ok := fs4.ok);
  }

  lemma WithBypassMeans(c: Ctx, fs: FS, e: Exp, link: int, ok: bool, reg: nat, outer: set<nat>, fr: nat, g: Goal)
    requires Good(c, fs, e, outer, fr, reg, g) && e.kind == VNONRELOC && e.info == reg && (ok ==> fs.ok)
    ensures Good(c, WithBypass(fs, link, reg).(ok := ok), e, outer, fr, reg, g)
    ensures KeepsControls(fs.code, WithBypass(fs, link, reg).code, outer)
  {
    var n := |fs.code|;
    var fs' := WithBypass(fs, link, reg).(ok := ok);
    var stops, stops' := outer + Elems(fs.jpc) + Own(e), outer + Elems(fs'.jpc) + Own(e);
    assert Elems(fs'.jpc) == Elems(fs.jpc) + {n};
    BypassShape(fs, e, fs', c.b, outer, link, reg);
    if !(g.Elsewhere? && g.o.Stuck?) {
      OutcomeIsSensible(c, fs, e, outer, fr, reg, g);
      hide Shaped;
      AppendRuns(c, fs.code, fs'.code, stops, stops');
      var o := Outcomes(c, fs, e, outer);
      if g.Wanted? && Ends(c.env, fs, e, g.v, o) {
        match o
        case At(pc, r) => assert pc in fs'.jpc && pc in stops' by { if pc in fs.jpc { assert pc in Elems(fs.jpc); } }
        case Taken(j, r) => assert j in fs'.jpc && j in stops' by { assert j in Elems(fs.jpc); }
        case _ =>
      } else if g.Wanted? {
        ResumeLeaving(c.env, fs, e, fs'.code, outer, stops', n + 3, g.v, o);
        LeavesIn(fs.code, e, fs'.code, e, outer, g.v, o);
      } else {
        NotArrived(fs, outer, g);
      }
    }
  }

  lemma BypassShape(fs: FS, e: Exp, fs': FS, b: nat, outer: set<nat>, link: int, reg: nat)
    requires Shaped(fs, e, b, outer) && e.kind == VNONRELOC
    requires fs' == WithBypass(fs, link, reg).(ok := fs'.ok) && (fs'.ok ==> fs.ok)
    ensures Shaped(fs', e, b, outer) && KeepsControls(fs.code, fs'.code, outer + Own(e))
  {
    var n := |fs.code|;
    assert Elems(fs'.jpc) == Elems(fs.jpc) + {n};
    assert n !in fs.jpc by { assert n in fs.jpc ==> n in Elems(fs.jpc); }
    assert Distinct(fs'.jpc) by {
      forall i, j | 0 <= i < j < |fs'.jpc| ensures fs'.jpc[i] != fs'.jpc[j] {
        assert fs'.jpc[j] == fs.jpc[j - 1];
        assert fs.jpc[j - 1] in fs.jpc;
      }
    }
    AppendShape(fs, e, fs', e, b, outer);
  }

  // ----- exp2reg -----

  // KeepsControls together with what makes it compose.
  ghost predicate Leads(fs: FS, fs': FS, outer: set<nat>) {
    KeepsControls(fs.code, fs'.code, outer) && Controlled(fs'.code, outer) && |fs.code| <= |fs'.code| + 1
  }

  lemma LeadsTrans(fs: FS, fs1: FS, fs2: FS, outer: set<nat>)
    requires Leads(fs, fs1, outer) && Leads(fs1, fs2, outer) && |fs.code| <= |fs2.code| + 1
    ensures Leads(fs, fs2, outer)
  {}

  lemma GoodLeads(c: Ctx, fs: FS, fs': FS, e': Exp, outer: set<nat>, fr: nat, skip: int, g: Goal)
    requires KeepsControls(fs.code, fs'.code, outer) && Good(c, fs', e', outer, fr, skip, g)
    ensures Leads(fs, fs', outer)
  {}

  lemma {:induction false} NeedFound(code: seq<Instr>, list: seq<nat>, j: nat)
    requires j in list && !ProducesValue(code, j)
    ensures NeedValue(code, list)
    decreases |list|
  {
    if j != list[0] { NeedFound(code, list[1..], j); }
  }

  lemma JumpsAreLists(fs: FS, e: Exp, outer: set<nat>)
    requires ListsApart(fs, e, outer)
    ensures HasJumps(e) <==> e.t != [] || e.f != []
  {
    if e.t != [] && e.f != [] {
      assert e.t[0] in Elems(e.t) && e.f[0] in Elems(e.f);
    }
  }

  lemma ComparisonFacts(c: Ctx, fs: FS, e: Exp, outer: set<nat>, fr: nat, g: Goal)
    requires Good(c, fs, AsList(e), outer, fr, -1, g) && Good(c, fs, e, outer, fr, -1, g) && e.kind == VJMP
    ensures var e2 := e.(t := e.t + [e.info]);
            HasJumps(e2) && NeedValue(fs.code, e2.t) && fs.jpc == [] &&
            forall j :: j in e2.t || j in e2.f ==> j < |fs.code|
  {
    var e2 := e.(t := e.t + [e.info]);
    JumpsAreLists(fs, AsList(e), outer);
    assert fs.code[e.info - 1].CMP?;
    NeedFound(fs.code, e2.t, e.info);
    assert forall j :: j in e2.t ==>
           j in Own(AsList(e)) by { assert forall j :: j in e2.t ==> j in Elems(AsList(e).t); }
    assert forall j :: j in e2.f ==>
           j in Own(AsList(e)) by { assert forall j :: j in e2.f ==> j in Elems(AsList(e).f); }
  }

  lemma Exp2RegOfComparison(fs: FS, e: Exp, reg: nat)
    requires e.kind == VJMP
    requires var fs2 := Concat(fs, e.t, [e.info]); var e2 := e.(t := e.t + [e.info]);
             HasJumps(e2) && NeedValue(fs2.code, e2.t) && fs2.jpc == []
    ensures var fs2 := Concat(fs, e.t, [e.info]);
            Exp2Reg(fs, e, reg) == (Closed(WithLoads(fs2, reg), InReg(AsList(e), reg), reg, |fs2.code|, |fs2.code| + 1),
                                    Placed(InReg(AsList(e), reg), reg))
  {
    var fs2 := Concat(fs, e.t, [e.info]);
    var e2 := e.(t := e.t + [e.info]);
    WithLoadsIs(fs2, reg);
    assert Exp2Reg(fs, e, reg).0 == CloseJumps(fs2, e2, reg);
  }

  lemma LoadsLand(fs: FS, e: Exp, reg: nat)
    requires forall j :: j in e.t || j in e.f ==> j < |fs.code|
    ensures Landing(WithLoads(fs, reg), e, reg, |fs.code|, |fs.code| + 1)
  {}

  lemma PlaceComparison(c: Ctx, fs: FS, e: Exp, reg: nat, outer: set<nat>, fr: nat, g: Goal)
    requires Good(c, fs, e, outer, fr, -1, g) && e.kind == VJMP && reg != NO_REG
    ensures Good(c, Exp2Reg(fs, e, reg).0, Exp2Reg(fs, e, reg).1, outer, fr, reg, g)
    ensures Leads(fs, Exp2Reg(fs, e, reg).0, outer)
  {
    hide Good, Leads, Closed, WithLoads, Exp2Reg, KeepsControls, Concat, Landing, NeedValue;
    var fs2 := Concat(fs, e.t, [e.info]);
    OwnListsPending(fs, e, outer);
    ConcatMeans(c, fs, e, outer, fr, -1, g, e.t, [e.info]);
    JumpAsList(c, fs2, e, outer, fr, -1, g);
    var el := AsList(e);
    ComparisonFacts(c, fs2, e, outer, fr, g);
    Exp2RegOfComparison(fs, e, reg);
    WithLoadsMeans(c, fs2, el, reg, outer, fr, g);
    var fs4, e4 := WithLoads(fs2, reg), InReg(el, reg);
    LoadsLand(fs2, e4, reg);
    CloseMeans(c, fs4, e4, outer, fr, reg, g, |fs2.code|, |fs2.code| + 1);
    var res := Exp2Reg(fs, e, reg);
    FewerOuter(fs.code, fs2.code, outer, Own(e));
    GoodLeads(c, fs, fs2, el, outer, fr, -1, g);
    GoodLeads(c, fs2, fs4, e4, outer, fr, reg, g);
    GoodLeads(c, fs4, res.0, res.1, outer, fr, reg, g);
    CodeGrows(fs2, reg, e4, |fs2.code|, |fs2.code| + 1);
    LeadsTrans(fs, fs2, fs4, outer);
    LeadsTrans(fs, fs4, res.0, outer);
  }

  lemma OwnListsPending(fs: FS, e: Exp, outer: set<nat>)
    ensures Elems(e.t) <= outer + Elems(fs.jpc) + Own(e) && Elems(e.f) <= outer + Elems(fs.jpc) + Own(e)
  {}

  lemma FewerOuter(code: seq<Instr>, code': seq<Instr>, outer: set<nat>, more: set<nat>)
    requires KeepsControls(code, code', outer + more)
    ensures KeepsControls(code, code', outer)
  {}

  lemma CodeGrows(fs: FS, reg: nat, e: Exp, p_f: int, p_t: int)
    ensures |WithLoads(fs, reg).code| == |fs.code| + 2
    ensures |Closed(WithLoads(fs, reg), e, reg, p_f, p_t).code| == |fs.code| + 2
  {}

  lemma CloseJumpsIs(fs: FS, e: Exp, reg: nat) returns (link: int, ok: bool)
    requires e.kind != VJMP
    ensures ok ==> fs.ok
    ensures CloseJumps(fs, e, reg) ==
            if NeedValue(fs.code, e.t) || NeedValue(fs.code, e.f)
            then Closed(WithBypass(fs, link, reg).(ok := ok), e, reg, |fs.code| + 1, |fs.code| + 2)
            else Closed(fs, e, reg, NO_JUMP, NO_JUMP)
    ensures |CloseJumps(fs, e, reg).code| >= |fs.code|
  {
    link, ok := 0, fs.ok;
    if NeedValue(fs.code, e.t) || NeedValue(fs.code, e.f) {
      WithBypassIs(fs, reg);
      var (fs1, fj) := Jump(fs);
      var fs4 := PatchToHere(CodeLabel(CodeLabel(fs1, reg, false, true), reg, true, false), fj);
      link, ok :| fs4 == WithBypass(fs, link, reg).(ok := ok) && (ok ==> fs.ok);
    }
  }

  lemma ListsBelow(c: Ctx, fs: FS, e: Exp, outer: set<nat>, fr: nat, skip: int, g: Goal)
    requires Good(c, fs, e, outer, fr, skip, g)
    ensures forall j :: j in e.t || j in e.f ==> 0 < j < |fs.code| && Control(fs.code, j) == j - 1
  {
    assert forall j :: j in e.t ==> j in Elems(e.t);
    assert forall j :: j in e.f ==> j in Elems(e.f);
    forall j | j in e.t || j in e.f ensures 0 < j < |fs.code| && Control(fs.code, j) == j - 1 {
      assert j in Own(e);
    }
  }

  lemma CloseJumpsMeans(c: Ctx, fs: FS, e: Exp, reg: nat, outer: set<nat>, fr: nat, g: Goal)
    requires Good(c, fs, e, outer, fr, reg, g) && e.kind == VNONRELOC && e.info == reg && reg != NO_REG
    ensures Good(c, CloseJumps(fs, e, reg), Placed(e, reg), outer, fr, reg, g)
    ensures Leads(fs, CloseJumps(fs, e, reg), outer)
  {
    hide Good, Leads, Closed, KeepsControls, CloseJumps;
    ListsBelow(c, fs, e, outer, fr, reg, g);
    var link, ok := CloseJumpsIs(fs, e, reg);
    if NeedValue(fs.code, e.t) || NeedValue(fs.code, e.f) {
      WithBypassMeans(c, fs, e, link, ok, reg, outer, fr, g);
      var fs4 := WithBypass(fs, link, reg).(ok := ok);
      CloseMeans(c, fs4, e, outer, fr, reg, g, |fs.code| + 1, |fs.code| + 2);
      GoodLeads(c, fs, fs4, e, outer, fr, reg, g);
      GoodLeads(c, fs4, CloseJumps(fs, e, reg), Placed(e, reg), outer, fr, reg, g);
      LeadsTrans(fs, fs4, CloseJumps(fs, e, reg), outer);
    } else {
      forall j | j in e.t || j in e.f ensures fs.code[j - 1].TESTSET? {
        if j in e.t { NoNeed(fs.code, e.t, j); } else { NoNeed(fs.code, e.f, j); }
      }
      CloseMeans(c, fs, e, outer, fr, reg, g, NO_JUMP, NO_JUMP);
      GoodLeads(c, fs, CloseJumps(fs, e, reg), Placed(e, reg), outer, fr, reg, g);
    }
  }

  // exp2reg: the value of the expression ends up in reg, whatever kind of descriptor it was.
  lemma Exp2RegMeans(c: Ctx, fs: FS, e0: Exp, reg: nat, outer: set<nat>, fr: nat, g: Goal)
    requires Good(c, fs, e0, outer, fr, -1, g) && reg != NO_REG && Exp2Reg(fs, e0, reg).0.k <= c.env.k
    ensures Good(c, Exp2Reg(fs, e0, reg).0, Exp2Reg(fs, e0, reg).1, outer, fr, reg, g)
    ensures Leads(fs, Exp2Reg(fs, e0, reg).0, outer)
  {
    hide Good, Leads, KeepsControls, CloseJumps;
    if e0.kind == VJMP {
      PlaceComparison(c, fs, e0, reg, outer, fr, g);
    } else {
      var (fs1, e) := Discharge2Reg(fs, e0, reg);
      DischargeMeans(c, fs, e0, reg, outer, fr, g);
      GoodLeads(c, fs, fs1, e, outer, fr, reg, g);
      NoJumpsNoLists(c, fs1, e, outer, fr, reg, g);
      if HasJumps(e) {
        CloseJumpsMeans(c, fs1, e, reg, outer, fr, g);
        var res := Exp2Reg(fs, e0, reg);
        assert res.0 == CloseJumps(fs1, e, reg) && res.1 == Placed(e, reg);
        var _, _ := CloseJumpsIs(fs1, e, reg);
        LeadsTrans(fs, fs1, res.0, outer);
      }
    }
  }

  lemma NoJumpsNoLists(c: Ctx, fs: FS, e: Exp, outer: set<nat>, fr: nat, skip: int, g: Goal)
    requires Good(c, fs, e, outer, fr, skip, g)
    ensures !HasJumps(e) ==> e.t == [] && e.f == []
  {
    JumpsAreLists(fs, e, outer);
  }
}
