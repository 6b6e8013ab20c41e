// lcode.c on expression descriptors, in place.
module LuaFuncExprs {
  import opened LuaMachine
  import G = LuaCodegen
  import opened LuaCodegenTypes = LuaCodegen
  import opened LuaCodeRuns
  import opened LuaCodeMeaning
  import opened LuaJumpLists
  import opened LuaJumpTidy
  import opened LuaFuncState

  // What every function of lcode.c can rely on.
  ghost predicate Holds(fs: FuncState, e: ExpDesc, b: nat, outer: set<nat>, base: nat)
    reads fs, e
  {
    fs.ok && fs.Valid() && e.Heads() && Tidy(fs.Model(), e.Model(), b, outer, base)
  }

  // The same, unless code generation has ended with a syntax error.
  ghost predicate Done(fs: FuncState, e: ExpDesc, m: FS, res: (FS, Exp), b: nat, outer: set<nat>, base: nat)
    reads fs, e
  {
    fs.ok == res.0.ok &&
    (fs.ok ==> (fs.Model(), e.Model()) == res && fs.Valid() && e.Heads() && Step(m, fs.Model(), e.Model(), b, outer, base))
  }

  // ----- discharging -----

  method DischargeToReg(fs: FuncState, e: ExpDesc, reg: nat, ghost b: nat, ghost outer: set<nat>)
    requires fs.Valid() && e.Heads() && Shaped(fs.Model(), e.Model(), b, outer) && LinksOK(fs.Model(), e.Model())
    modifies fs, e
    ensures (fs.Model(), e.Model()) == G.Discharge2Reg(old(fs.Model()), old(e.Model()), reg) && fs.Valid() && e.Heads()
  {
    InCode(fs.Model(), e.Model(), b, outer);
    hide Shaped, LinksOK, Linked, Distinct, G.Code, G.LoadNils, G.CodeK, G.AddK;
    e.DischargeVars();
    match e.kind {
      case VNIL => fs.LoadNil(reg, 1);
      case VFALSE => fs.Code(LOADBOOL(reg, false, false));
      case VTRUE => fs.Code(LOADBOOL(reg, true, false));
      case VK => fs.CodeK(reg, e.info);
      case VKNUM =>
        var i := fs.AddK(Num(e.nval));
        fs.CodeK(reg, i);
      case VRELOCABLE => fs.SetA(e.info, reg);
      case VNONRELOC => if reg != e.info { fs.Code(MOVE(reg, e.info)); }
      case _ => return;
    }
    e.Become(VNONRELOC, reg);
  }

  lemma InCode(m: FS, e: Exp, b: nat, outer: set<nat>)
    requires Shaped(m, e, b, outer)
    ensures e.kind == VRELOCABLE ==> e.info < |m.code| && (m.code[e.info].ARITH? || m.code[e.info].UNARY? || m.code[e.info].NOT?)
  {}

  method CodeLabel(fs: FuncState, a: nat, v: bool, skip: bool) returns (pc: nat)
    requires fs.Valid()
    modifies fs
    ensures fs.Model() == G.CodeLabel(old(fs.Model()), a, v, skip) && fs.Valid() && pc == old(|fs.code|)
  {
    pc := fs.GetLabel();
    fs.Code(LOADBOOL(a, v, skip));
  }

  // The second half of exp2reg.  js: jumps of other descriptors.
  method CloseJumps(fs: FuncState, e: ExpDesc, reg: nat, ghost js: set<nat>)
    requires fs.Valid() && e.Heads() && Linked(fs.code, e.ts) && Linked(fs.code, e.fs)
    requires Distinct(e.fs) && Distinct(e.ts) && Elems(e.fs) !! Elems(e.ts) && (e.kind == VJMP ==> fs.waiting == [])
    requires Jumps(fs.code, js) && js !! Elems(fs.waiting)
    requires (js + Elems(fs.waiting)) !! Elems(e.fs) && (js + Elems(fs.waiting)) !! Elems(e.ts)
    modifies fs
    ensures fs.Model() == G.CloseJumps(old(fs.Model()), old(e.Model()), reg) && fs.Valid()
  {
    hide Linked, Distinct, Jumps, G.Jump, G.CodeLabel, G.PatchToHere, G.PatchListAux, G.NeedValue;
    ghost var m, x := fs.Model(), e.Model();
    LinkedJumps(fs.code, e.ts);
    LinkedJumps(fs.code, e.fs);
    BothJumps(fs.code, e.fs, e.ts);
    CloseLinks(m, x, reg, js);
    CloseJumpsSteps(m, x, reg);
    var p_f: int, p_t: int := NO_JUMP, NO_JUMP;
    var needT := fs.NeedValue(e.t, e.ts);
    var needF := fs.NeedValue(e.f, e.fs);
    if needT || needF {
      p_f, p_t := LoadBoth(fs, e, reg, js);
    }
    PatchBothLists(fs, e, reg, p_f, p_t);
  }

  // exp2reg, by whether the loads are needed
  lemma CloseJumpsSteps(m: FS, x: Exp, reg: nat)
    ensures var need := G.NeedValue(m.code, x.t) || G.NeedValue(m.code, x.f);
            var (m1, fj) := if x.kind == VJMP then (m, []) else G.Jump(m);
            var m2 := G.CodeLabel(m1, reg, false, true);
            var m4 := if need then G.PatchToHere(G.CodeLabel(m2, reg, true, false), fj) else m;
            var p_f: int := if need then |m1.code| else NO_JUMP;
            var p_t: int := if need then |m2.code| else NO_JUMP;
            G.CloseJumps(m, x, reg) ==
            G.PatchListAux(G.PatchListAux(G.GetLabel(m4), x.f, |m4.code|, reg, p_f), x.t, |m4.code|, reg, p_t)
  {}

  method PatchBothLists(fs: FuncState, e: ExpDesc, reg: nat, p_f: int, p_t: int)
    requires e.Heads() && Linked(fs.code, e.ts) && Linked(fs.code, e.fs) && Distinct(e.fs) && Distinct(e.ts) &&
             Elems(e.fs) !! Elems(e.ts)
    modifies fs`lasttarget, fs`code, fs`ok
    ensures var m, final := old(fs.Model()), |old(fs.code)|;
            fs.Model() == G.PatchListAux(G.PatchListAux(G.GetLabel(m), e.fs, final, reg, p_f), e.ts, final, reg, p_t)
  {
    var final := fs.GetLabel();
    ghost var m1 := fs.Model();
    OtherStays(m1, e.fs, e.ts, final, reg, p_f);
    hide Linked, Distinct, G.PatchListAux;
    fs.PatchListAux(e.f, final, reg, p_f, e.fs);
    fs.PatchListAux(e.t, final, reg, p_t, e.ts);
  }

  lemma BothJumps(code: seq<Instr>, f: seq<nat>, t: seq<nat>)
    requires Jumps(code, Elems(f)) && Jumps(code, Elems(t))
    ensures Jumps(code, Elems(f) + Elems(t))
  {}

  lemma LinkedJumps(code: seq<Instr>, l: seq<nat>)
    requires Linked(code, l)
    ensures Jumps(code, Elems(l))
  {
    forall j | j in Elems(l) ensures j < |code| && code[j].JMP? {
      var i :| 0 <= i < |l| && l[i] == j;
    }
  }

  lemma OtherStays(m: FS, l: seq<nat>, l': seq<nat>, vt: int, reg: nat, dt: int)
    requires Linked(m.code, l) && Linked(m.code, l') && Distinct(l) && Elems(l) !! Elems(l')
    ensures Linked(G.PatchListAux(m, l, vt, reg, dt).code, l')
  {
    LinkedJumps(m.code, l);
    LinkedJumps(m.code, l');
    PatchSame(m, l, vt, reg, dt, Elems(l'));
    LinkedStays(m.code, G.PatchListAux(m, l, vt, reg, dt).code, l', Elems(l'));
  }

  // The loads of false and true, jumped over by a value that is in place.
  method LoadBoth(fs: FuncState, e: ExpDesc, reg: nat, ghost js: set<nat>) returns (p_f: nat, p_t: nat)
    requires fs.Valid() && Linked(fs.code, e.ts) && Linked(fs.code, e.fs) && (e.kind == VJMP ==> fs.waiting == [])
    requires Elems(fs.waiting) !! Elems(e.fs) && Elems(fs.waiting) !! Elems(e.ts)
    modifies fs
    ensures var m := old(fs.Model());
            var (m1, fj) := if e.kind == VJMP then (m, []) else G.Jump(m);
            var m2 := G.CodeLabel(m1, reg, false, true);
            fs.Model() == G.PatchToHere(G.CodeLabel(m2, reg, true, false), fj) && p_f == |m1.code| && p_t == |m2.code|
    ensures fs.Valid() && Linked(fs.code, e.ts) && Linked(fs.code, e.fs)
  {
    hide Linked, Distinct, G.Jump, G.CodeLabel, G.PatchToHere;
    ghost var lists := Elems(e.ts) + Elems(e.fs);
    ghost var m := fs.Model();
    BelowCode(fs.code, e.ts);
    BelowCode(fs.code, e.fs);
    var fj: int := NO_JUMP;
    ghost var l: seq<nat> := [];
    if e.kind != VJMP {
      JumpLinks(m, lists);
      l := G.Jump(m).1;
      fj := fs.Jump();
    }
    ghost var m1 := fs.Model();
    assert m1.jpc == [] && SameJumps(m.code, m1.code, lists);
    LinkedInside(m1.code, l);
    p_f := CodeLabel(fs, reg, false, true);
    CodeLabelSame(m1, reg, false, true, lists + Elems(l));
    ghost var m2 := fs.Model();
    p_t := CodeLabel(fs, reg, true, false);
    CodeLabelSame(m2, reg, true, false, lists + Elems(l));
    StaysLinked(m.code, m1.code, m2.code, fs.code, e.ts, e.fs, l, lists);
    ghost var m3 := fs.Model();
    fs.PatchToHere(fj, l);
    NothingWaited(m3, l);
  }

  lemma BelowCode(code: seq<Instr>, l: seq<nat>)
    requires Linked(code, l)
    ensures forall j :: j in Elems(l) ==> j < |code|
  {
    LinkedJumps(code, l);
  }

  lemma LinkedInside(code: seq<Instr>, l: seq<nat>)
    requires Linked(code, l)
    ensures forall j :: j in Elems(l) ==> j < |code|
  {
    LinkedJumps(code, l);
  }

  lemma NothingWaited(m: FS, l: seq<nat>)
    requires m.jpc == []
    ensures G.PatchToHere(m, l).code == m.code
  {}

  lemma StaysLinked(c0: seq<Instr>, c1: seq<Instr>, c2: seq<Instr>, c3: seq<Instr>, ts: seq<nat>, fs: seq<nat>,
                    l: seq<nat>, lists: set<nat>)
    requires Linked(c0, ts) && Linked(c0, fs) && Linked(c1, l) && lists == Elems(ts) + Elems(fs)
    requires SameJumps(c0, c1, lists) && SameJumps(c1, c2, lists + Elems(l)) && SameJumps(c2, c3, lists + Elems(l))
    ensures Linked(c3, ts) && Linked(c3, fs) && Linked(c3, l)
  {
    SameTrans(c1, c2, c3, lists + Elems(l));
    LinkedStays(c1, c3, l, lists + Elems(l));
    LinkedStays(c0, c1, ts, lists);
    LinkedStays(c0, c1, fs, lists);
    LinkedStays(c1, c3, ts, lists + Elems(l));
    LinkedStays(c1, c3, fs, lists + Elems(l));
  }

  // exp2reg
  method Exp2Reg(fs: FuncState, e: ExpDesc, reg: nat, ghost b: nat, ghost outer: set<nat>)
    requires fs.Valid() && e.Heads() && Shaped(fs.Model(), e.Model(), b, outer) && LinksOK(fs.Model(), e.Model())
    modifies fs, e
    ensures (fs.Model(), e.Model()) == G.Exp2Reg(old(fs.Model()), old(e.Model()), reg) && fs.Valid() && e.Heads()
  {
    hide Shaped, LinksOK, Linked, Distinct, Jumps, G.Discharge2Reg, G.CloseJumps, G.Concat;
    ghost var m, x := fs.Model(), e.Model();
    DischargedShape(m, x, b, outer, reg);
    DischargeLinks(m, x, b, outer, reg);
    Exp2RegSteps(m, x, reg);
    DischargeToReg(fs, e, reg, b, outer);
    ghost var m1, x1 := fs.Model(), e.Model();
    LinksParts(m1, x1);
    if e.kind == VJMP {
      JumpToList(fs, e, b, outer);
    } else {
      PartsApart(m1, x1, b, outer);
    }
    if e.HasJumps() {
      CloseJumps(fs, e, reg, outer);
    }
    e.SetTrue(NO_JUMP, []);
    e.SetFalse(NO_JUMP, []);
    e.Become(VNONRELOC, reg);
  }

  // A comparison's jump is put into the list of exits when true.
  method JumpToList(fs: FuncState, e: ExpDesc, ghost b: nat, ghost outer: set<nat>)
    requires fs.Valid() && e.Heads() && Shaped(fs.Model(), e.Model(), b, outer) && LinksOK(fs.Model(), e.Model()) &&
             e.kind == VJMP
    modifies fs`code, fs`ok, e
    ensures fs.Model() == G.Concat(old(fs.Model()), old(e.ts), [old(e.info)])
    ensures e.Model() == old(e.Model()).(t := old(e.ts) + [old(e.info)]) && e.Heads() && fs.Valid() && fs.waiting == []
    ensures Linked(fs.code, e.ts) && Linked(fs.code, e.fs) && Distinct(e.ts) && Distinct(e.fs) &&
            Elems(e.fs) !! Elems(e.ts)
    ensures Jumps(fs.code, outer) && outer !! Elems(e.fs) && outer !! Elems(e.ts)
  {
    hide Shaped, LinksOK, Linked, Distinct, Elems, Jumps, SameJumps, G.Concat, KeysOK;
    JumpJoins(fs.Model(), e.Model(), b, outer);
    PartsApart(fs.Model(), e.Model(), b, outer);
    LinksParts(fs.Model(), e.Model());
    NothingWaits(fs.Model(), e.Model(), b, outer);
    var t := fs.Concat(e.t, e.info, e.ts, [e.info]);
    NoList(fs.code);
    e.SetTrue(t, e.ts + [e.info]);
  }

  lemma NothingWaits(m: FS, x: Exp, b: nat, outer: set<nat>)
    requires Shaped(m, x, b, outer) && x.kind == VJMP
    ensures m.jpc == [] && Linked(m.code, []) && Distinct([]) && Head([x.info]) == x.info
  {}

  lemma LinksParts(m: FS, x: Exp)
    requires LinksOK(m, x)
    ensures Linked(m.code, m.jpc) && Linked(m.code, x.t) && Linked(m.code, x.f)
  {}

  lemma Exp2RegSteps(m: FS, x: Exp, reg: nat)
    ensures var (m1, x1) := G.Discharge2Reg(m, x, reg);
            var m2 := if x1.kind == VJMP then G.Concat(m1, x1.t, [x1.info]) else m1;
            var x2 := if x1.kind == VJMP then x1.(t := x1.t + [x1.info]) else x1;
            G.Exp2Reg(m, x, reg) == (if G.HasJumps(x2) then G.CloseJumps(m2, x2, reg) else m2, Exp(VNONRELOC, reg, x1.nval, [], []))
  {}
}
