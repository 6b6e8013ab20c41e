// goiftrue, goiffalse and not: conditions from any descriptor.
module LuaCodeBranches {
  import opened Common
  import opened LuaMachine
  import opened LuaCodegen
  import opened LuaCodeRuns
  import opened LuaCodeMeaning
  import opened LuaCodeLoads
  import opened LuaCodeClose
  import opened LuaCodePlace
  import opened LuaCodeRegs
  import opened LuaCodeConds

  // Constants in the table that a finished descriptor names are strings, hence true.
  predicate TrueConst(fs: FS, e: Exp) {
    e.kind == VK ==> e.info < |fs.k| && !IsFalse(fs.k[e.info])
  }

  ghost function GoIf(fs: FS, e: Exp, flag: bool): (FS, Exp) {
    if flag then GoIfTrue(fs, e) else GoIfFalse(fs, e)
  }

  // The first half of goiftrue and goiffalse: a jump that leaves with the other truth value.
  ghost function Branch(fs: FS, e: Exp, flag: bool): (FS, seq<nat>) {
    if e.kind == VJMP then (if flag then InvertJump(fs, e) else fs, [e.info])
    else if AlwaysIs(e, flag) then (fs, [])
    else JumpOnCond(fs, e, !flag)
  }

  predicate AlwaysIs(e: Exp, flag: bool) {
    if flag then e.kind == VK || e.kind == VKNUM || e.kind == VTRUE else e.kind == VNIL || e.kind == VFALSE
  }

  lemma GoIfIs(fs: FS, e0: Exp, flag: bool)
    ensures var e := DischargeVars(e0); var (fs1, pc) := Branch(fs, e, flag);
            GoIf(fs, e0, flag) == (PatchToHere(Concat(fs1, if flag then e.f else e.t, pc), Here(e, flag)),
                                   if flag then e.(f := e.f + pc, t := []) else e.(t := e.t + pc, f := []))
  {}

  lemma InvertedBranch(c: Ctx, fs: FS, e: Exp, outer: set<nat>, base: nat, g: Goal)
    requires Ready(c, fs, e, outer, base, g) && e.kind == VJMP
    ensures Tested(c, InvertJump(fs, e), Joined(e, [e.info], false), outer, base, g, true)
    ensures Leads(fs, InvertJump(fs, e), outer)
  {
    var fs', e' := InvertJump(fs, e), Joined(e, [e.info], false);
    var o, o' := Outcomes(c, fs, e, outer), Outcomes(c, fs', e, outer);
    InvertShape(fs, e, c.b, outer);
    JumpInList(fs', e, c.b, outer, false);
    FewerOuter(fs.code, fs'.code, outer, Elems(e.t) + Elems(e.f));
    assert outer + (Elems(e.t) + Elems(e.f)) == outer + Elems(e.t) + Elems(e.f);
    assert fs'.freereg == base && fs'.nactvar <= base;
    ShapeParts(fs', e', c.b, outer);
    if !(g.Elsewhere? && g.o.Stuck?) {
      OutcomeIsSensible(c, fs, e, outer, base, -1, g);
      InvertRuns(c, fs, e, outer);
      assert o' == Run(c.env, fs'.code, outer + Elems(fs'.jpc) + Own(e'), |fs'.code|, c.b, c.s);
      if g.Elsewhere? {
        assert e.info !in outer;
      } else {
        InvertedLeaves(c.env, fs, e, fs', e', outer, g.v, o, o');
      }
    }
  }

  lemma InvertedLeaves(env: Env, fs: FS, e: Exp, fs': FS, e': Exp, outer: set<nat>, v: Option<Value>, o: Outcome,
                       o': Outcome)
    requires Leaves(fs.code, e, v, o) || Ends(env, fs, e, v, o)
    requires e.kind == VJMP && fs.jpc == [] == fs'.jpc && e' == Joined(e, [e.info], false) && e.info == |fs.code| - 1
    requires |fs'.code| == |fs.code| > 1 && fs'.code[|fs.code| - 2].CMP?
    requires KeepsControls(fs.code, fs'.code, outer + Elems(e.t) + Elems(e.f)) && e.info !in e.t && e.info !in e.f
    requires match o
             case At(pc, r) => if pc == |fs.code| then o' == Taken(|fs.code| - 1, r) else o' == o
             case Taken(j, r) => if j == |fs.code| - 1 then o' == At(|fs.code|, r) else o' == o
             case _ => o' == o
    ensures Leaves(fs'.code, e', v, o') || (o'.At? && o'.pc == |fs'.code| && Truth(v, true))
    ensures (o'.At? || o'.Taken?) ==> (o.At? || o.Taken?) && o'.regs == o.regs
  {
    match o
    case Taken(j, r) =>
      assert j in e.t ==> j in Elems(e.t);
      assert j in e.f ==> j in Elems(e.f);
      assert j in e.f ==> j in e'.f;
    case _ =>
  }

  // The jump of a comparison joins a list.
  lemma JumpInList(fs: FS, e: Exp, b: nat, outer: set<nat>, cond: bool)
    requires Shaped(fs, e, b, outer) && e.kind == VJMP
    ensures Shaped(fs, Joined(e, [e.info], cond), b, outer) && Own(Joined(e, [e.info], cond)) == Own(e)
    ensures e.info !in e.t && e.info !in e.f
  {
    assert Elems(e.t + [e.info]) == Elems(e.t) + {e.info};
    assert Elems(e.f + [e.info]) == Elems(e.f) + {e.info};
    assert e.info in e.t ==> e.info in Elems(e.t);
    assert e.info in e.f ==> e.info in Elems(e.f);
  }

  lemma JumpBranch(c: Ctx, fs: FS, e: Exp, outer: set<nat>, base: nat, g: Goal)
    requires Ready(c, fs, e, outer, base, g) && e.kind == VJMP
    ensures Tested(c, fs, Joined(e, [e.info], true), outer, base, g, false)
  {
    JumpAsList(c, fs, e, outer, base, -1, g);
    GoodAsConds(c, fs, AsList(e), outer, base, g, _ => g.Wanted? && Truth(g.v, false));
  }

  lemma ConstantBranch(c: Ctx, fs: FS, e: Exp, outer: set<nat>, base: nat, g: Goal, flag: bool)
    requires Ready(c, fs, e, outer, base, g) && AlwaysIs(e, flag) && TrueConst(fs, e) && fs.k <= c.env.k
    ensures Tested(c, fs, Joined(e, [], !flag), outer, base, g, flag)
  {
    assert e.t + [] == e.t && e.f + [] == e.f;
    GoodAsConds(c, fs, e, outer, base, g, _ => g.Wanted? && Truth(g.v, flag));
  }

  lemma BranchMeans(c: Ctx, fs: FS, e: Exp, outer: set<nat>, base: nat, g: Goal, flag: bool)
    requires Ready(c, fs, e, outer, base, g) && e.kind != VLOCAL && TrueConst(fs, e)
    requires Branch(fs, e, flag).0.ok && Branch(fs, e, flag).0.k <= c.env.k
    ensures var (fs1, pc) := Branch(fs, e, flag);
            Tested(c, fs1, Joined(e, pc, !flag), outer, base, g, flag) && Leads(fs, fs1, outer)
  {
    hide Ready, Leads, JumpOnCond, InvertJump, Tested, Joined;
    SameLeadsReady(c, fs, e, outer, base, g);
    if e.kind == VJMP {
      if flag { InvertedBranch(c, fs, e, outer, base, g); } else { JumpBranch(c, fs, e, outer, base, g); }
    } else if AlwaysIs(e, flag) {
      ConstantBranch(c, fs, e, outer, base, g, flag);
    } else {
      RelocInside(c, fs, e, outer, base, g);
      if e.kind == VRELOCABLE && fs.code[e.info].NOT? {
        JumpOnNot(c, fs, e, outer, base, g, !flag);
      } else {
        JumpOnValue(c, fs, e, outer, base, g, !flag);
      }
    }
  }

  lemma SameLeadsReady(c: Ctx, fs: FS, e: Exp, outer: set<nat>, base: nat, g: Goal)
    requires Ready(c, fs, e, outer, base, g)
    ensures Leads(fs, fs, outer)
  {}

  lemma RelocInside(c: Ctx, fs: FS, e: Exp, outer: set<nat>, base: nat, g: Goal)
    requires Ready(c, fs, e, outer, base, g)
    ensures e.kind == VRELOCABLE ==> e.info < |fs.code|
  {}

  lemma ReadyVars(c: Ctx, fs: FS, e: Exp, outer: set<nat>, base: nat, g: Goal)
    requires Ready(c, fs, e, outer, base, g)
    ensures Ready(c, fs, DischargeVars(e), outer, base, g)
  {
    VarsMeans(c, fs, e, outer, base, -1, g);
  }

  // goiftrue and goiffalse: runs go on here exactly with the truth value asked for, the others
  // leave by the one list that is left, with their value.
  lemma GoIfMeans(c: Ctx, fs: FS, e0: Exp, outer: set<nat>, base: nat, g: Goal, flag: bool)
    requires Ready(c, fs, e0, outer, base, g) && TrueConst(fs, e0)
    requires GoIf(fs, e0, flag).0.ok && GoIf(fs, e0, flag).0.k <= c.env.k
    ensures var (fs', e') := GoIf(fs, e0, flag);
            Tested(c, fs', Lists(e'.t, e'.f), outer, base, g, flag) && (if flag then e'.t == [] else e'.f == []) && Leads(fs, fs', outer)
  {
    hide Ready, Leads, Branch, Tested, KeepsControls, PatchToHere, Concat, GoIf;
    var e := DischargeVars(e0);
    ReadyVars(c, fs, e0, outer, base, g);
    GoIfIs(fs, e0, flag);
    var (fs1, pc) := Branch(fs, e, flag);
    var fs2 := PatchToHere(Concat(fs1, if flag then e.f else e.t, pc), Here(e, flag));
    BranchMeans(c, fs, e, outer, base, g, flag);
    CloseCondition(c, fs1, e, pc, outer, base, g, flag);
    var e2 := There(Joined(e, pc, !flag), flag);
    TestedLeads(c, fs1, fs2, e2, outer, base, g, flag);
    ShorterBy(fs, fs1, fs2, outer);
    LeadsTrans(fs, fs1, fs2, outer);
  }

  lemma ShorterBy(fs: FS, fs1: FS, fs2: FS, outer: set<nat>)
    requires Leads(fs, fs1, outer) && |fs2.code| == |fs1.code|
    ensures |fs.code| <= |fs2.code| + 1
  {}

  lemma TestedLeads(c: Ctx, fs: FS, fs': FS, e': Exp, outer: set<nat>, base: nat, g: Goal, flag: bool)
    requires Tested(c, fs', e', outer, base, g, flag) && KeepsControls(fs.code, fs'.code, outer)
    ensures Leads(fs, fs', outer)
  {}
}
