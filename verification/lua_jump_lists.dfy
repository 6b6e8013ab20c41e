// Jump lists as the generator stores them: chains threaded through the offsets of the pending
// jumps themselves, ended by the offset that would jump to itself.
module LuaJumpLists {
  import opened LuaMachine
  import opened LuaCodegen
  import opened LuaCodeRuns
  import opened LuaCodeMeaning

  // ----- chains -----

  function LinkTo(l: seq<nat>, i: nat): int
    requires i < |l|
  {
    if i + 1 < |l| then l[i + 1] - (l[i] + 1) else NO_JUMP
  }

  // The code holds exactly the members of l, in this order.
  ghost predicate Linked(code: seq<Instr>, l: seq<nat>) {
    forall i :: 0 <= i < |l| ==> l[i] < |code| && code[l[i]] == JMP(LinkTo(l, i))
  }

  // getjump
  function NextJump(code: seq<Instr>, pc: nat): int {
    if pc < |code| && code[pc].JMP? && code[pc].sbx != NO_JUMP then pc + 1 + code[pc].sbx else NO_JUMP
  }

  // Following the links visits the members and stops at the end: no member links to itself.
  lemma FollowLinks(code: seq<Instr>, l: seq<nat>, i: nat)
    requires Linked(code, l) && Distinct(l) && i < |l|
    ensures NextJump(code, l[i]) == if i + 1 < |l| then l[i + 1] else NO_JUMP
    ensures i + 1 < |l| ==> NextJump(code, l[i]) != NO_JUMP
  {
    if i + 1 < |l| { assert l[i + 1] != l[i]; }
  }

  ghost predicate SameJumps(code: seq<Instr>, code': seq<Instr>, js: set<nat>) {
    forall j :: j in js ==> j < |code| && j < |code'| && code'[j] == code[j]
  }

  lemma LinkedStays(code: seq<Instr>, code': seq<Instr>, l: seq<nat>, js: set<nat>)
    requires Linked(code, l) && SameJumps(code, code', js) && Elems(l) <= js
    ensures Linked(code', l)
  {
    forall i | 0 <= i < |l| ensures l[i] < |code'| && code'[l[i]] == JMP(LinkTo(l, i)) { assert l[i] in Elems(l); }
  }

  lemma SameTrans(a: seq<Instr>, b: seq<Instr>, d: seq<Instr>, js: set<nat>)
    requires SameJumps(a, b, js) && SameJumps(b, d, js)
    ensures SameJumps(a, d, js)
  {}

  lemma SameFewer(a: seq<Instr>, b: seq<Instr>, js: set<nat>, fewer: set<nat>)
    requires SameJumps(a, b, js) && fewer <= js
    ensures SameJumps(a, b, fewer)
  {}

  // ----- concat and patch -----

  // luaK_concat makes one chain of two and changes no other jump.
  lemma ConcatLinks(fs: FS, l1: seq<nat>, l2: seq<nat>, js: set<nat>)
    requires Linked(fs.code, l1) && Linked(fs.code, l2) && Distinct(l1) && Elems(l1) !! Elems(l2)
    requires js !! Elems(l1) && forall j :: j in js ==> j < |fs.code|
    ensures Linked(Concat(fs, l1, l2).code, l1 + l2) && SameJumps(fs.code, Concat(fs, l1, l2).code, js)
  {
    if l1 == [] {
      assert l1 + l2 == l2;
    } else if l2 == [] {
      assert l1 + l2 == l1;
    } else {
      var last := l1[|l1| - 1];
      assert last in Elems(l1);
      forall i | 0 <= i < |l1| - 1 ensures l1[i] != last {}
      forall i | 0 <= i < |l2| ensures l2[i] != last { assert l2[i] in Elems(l2); }
      JoinLinks(fs.code, Concat(fs, l1, l2).code, l1, l2);
    }
  }

  lemma JoinLinks(code: seq<Instr>, code': seq<Instr>, l1: seq<nat>, l2: seq<nat>)
    requires Linked(code, l1) && Linked(code, l2) && l1 != [] && l2 != []
    requires forall i :: 0 <= i < |l1| - 1 ==> l1[i] != l1[|l1| - 1]
    requires forall i :: 0 <= i < |l2| ==> l2[i] != l1[|l1| - 1]
    requires var last := l1[|l1| - 1]; code' == code[last := JMP(l2[0] as int - (last + 1))]
    ensures Linked(code', l1 + l2)
  {
    var l := l1 + l2;
    forall i | 0 <= i < |l| ensures l[i] < |code'| && code'[l[i]] == JMP(LinkTo(l, i)) {
      if i < |l1| { assert l[i] == l1[i]; } else { assert l[i] == l2[i - |l1|]; }
    }
  }

  lemma PatchedSame(code: seq<Instr>, code': seq<Instr>, list: seq<nat>, vt: int, reg: nat, dt: int, js: set<nat>)
    requires Patched(code, code', list, vt, reg, dt) && Jumps(code, js) && js !! Elems(list)
    ensures SameJumps(code, code', js) && Jumps(code', js)
  {
    forall j | j in js ensures j < |code'| && code'[j] == code[j] {
      assert PatchedAt(code, code', list, vt, reg, dt, j);
      assert j in list ==> j in Elems(list);
    }
  }

  // Patching a list redirects its members and leaves every other jump alone.
  lemma PatchSame(fs: FS, list: seq<nat>, vt: int, reg: nat, dt: int, js: set<nat>)
    requires Distinct(list) && Jumps(fs.code, Elems(list)) && Jumps(fs.code, js) && js !! Elems(list)
    ensures var code' := PatchListAux(fs, list, vt, reg, dt).code; SameJumps(fs.code, code', js) && Jumps(code', js)
  {
    PatchListIsPatched(fs, list, vt, reg, dt);
    PatchedSame(fs.code, PatchListAux(fs, list, vt, reg, dt).code, list, vt, reg, dt, js);
  }

  lemma EmitSame(fs: FS, tail: seq<Instr>, js: set<nat>)
    requires Distinct(fs.jpc) && Jumps(fs.code, Elems(fs.jpc)) && Jumps(fs.code, js) && js !! Elems(fs.jpc)
    ensures SameJumps(fs.code, Emit(fs, tail).code, js)
  {
    PatchSame(fs, fs.jpc, |fs.code|, NO_REG, |fs.code|, js);
  }

  // luaK_jump: the new jump heads the list of those that waited for it.
  lemma JumpLinks(fs: FS, js: set<nat>)
    requires Linked(fs.code, fs.jpc) && Distinct(fs.jpc) && js !! Elems(fs.jpc) && forall j :: j in js ==> j < |fs.code|
    ensures var (fs1, l) := Jump(fs);
            Linked(fs1.code, l) && Distinct(l) && SameJumps(fs.code, fs1.code, js + Elems(fs.jpc)) && fs1.jpc == [] &&
            Elems(l) == Elems(fs.jpc) + {|fs.code|} && |fs1.code| == |fs.code| + 1
  {
    hide Linked, SameJumps, Distinct, Elems, Concat;
    var n := |fs.code|;
    var c := Code(fs.(jpc := []), JMP(NO_JUMP));
    NewJump(fs);
    OneElem(n);
    BelowEnd(fs.code, fs.jpc, n);
    ConcatLinks(c, [n], fs.jpc, js + Elems(fs.jpc));
    LongerSame(fs.code, c.code, Concat(c, [n], fs.jpc).code, js + Elems(fs.jpc));
    ConsDistinct(n, fs.jpc);
  }

  lemma NewJump(fs: FS)
    requires Linked(fs.code, fs.jpc)
    ensures var c := Code(fs.(jpc := []), JMP(NO_JUMP)); c.code == fs.code + [JMP(NO_JUMP)] && Linked(c.code, [|fs.code|]) && Linked(c.code, fs.jpc)
    ensures var c := Code(fs.(jpc := []), JMP(NO_JUMP)); Jump(fs) == (Concat(c, [|fs.code|], fs.jpc), [|fs.code|] + fs.jpc)
    ensures var c := Code(fs.(jpc := []), JMP(NO_JUMP)); var r := Concat(c, [|fs.code|], fs.jpc); |r.code| == |fs.code| + 1 && r.jpc == []
  {
    var c := Code(fs.(jpc := []), JMP(NO_JUMP));
    assert c.code == fs.code + [JMP(NO_JUMP)];
  }

  lemma OneElem(n: nat)
    ensures Elems([n]) == {n} && Distinct([n])
  {}

  lemma BelowEnd(code: seq<Instr>, l: seq<nat>, n: nat)
    requires Linked(code, l) && n == |code|
    ensures forall j :: j in Elems(l) ==> j < n
  {}

  lemma LongerSame(a: seq<Instr>, b: seq<Instr>, d: seq<Instr>, js: set<nat>)
    requires a <= b && SameJumps(b, d, js) && forall j :: j in js ==> j < |a|
    ensures SameJumps(a, d, js)
  {}

  lemma ConsDistinct(n: nat, l: seq<nat>)
    requires Distinct(l) && n !in Elems(l)
    ensures Distinct([n] + l) && Elems([n] + l) == Elems(l) + {n}
  {
    var m := [n] + l;
    forall i, j | 0 <= i < j < |m| ensures m[i] != m[j] { assert m[j] == l[j - 1] && l[j - 1] in Elems(l); }
    forall x | x in Elems(l) ensures x in Elems(m) {
      var i :| 0 <= i < |l| && l[i] == x;
      assert m[i + 1] == x;
    }
    assert m[0] == n;
  }

  // ----- descriptors -----

  ghost predicate LinksOK(fs: FS, e: Exp) {
    Linked(fs.code, fs.jpc) && Linked(fs.code, e.t) && Linked(fs.code, e.f) && (e.kind == VJMP ==> Linked(fs.code, [e.info]))
  }

  lemma KeepLinks(fs: FS, e: Exp, fs': FS, e': Exp, js: set<nat>)
    requires LinksOK(fs, e) && SameJumps(fs.code, fs'.code, js) && Elems(e.t) <= js && Elems(e.f) <= js
    requires fs'.jpc == [] || (fs'.jpc == fs.jpc && Elems(fs.jpc) <= js)
    requires e'.t == e.t && e'.f == e.f && e'.kind != VJMP
    ensures LinksOK(fs', e')
  {
    LinkedStays(fs.code, fs'.code, e.t, js);
    LinkedStays(fs.code, fs'.code, e.f, js);
    if fs'.jpc != [] { LinkedStays(fs.code, fs'.code, fs.jpc, js); }
  }

  lemma OwnParts(e: Exp)
    ensures Elems(e.t) <= Own(e) && Elems(e.f) <= Own(e)
  {}

  // Emitting instructions that are not jumps.
  lemma EmitLinks(fs: FS, e: Exp, b: nat, outer: set<nat>, tail: seq<Instr>, e': Exp)
    requires Shaped(fs, e, b, outer) && LinksOK(fs, e) && e'.t == e.t && e'.f == e.f && e'.kind != VJMP
    ensures SameJumps(fs.code, Emit(fs, tail).code, outer + Own(e)) && LinksOK(Emit(fs, tail), e')
  {
    EmitSame(fs, tail, outer + Own(e));
    OwnParts(e);
    KeepLinks(fs, e, Emit(fs, tail), e', outer + Own(e));
  }

  // The last instruction, not a jump, becomes another that is not a jump.
  lemma ReplaceLinks(fs: FS, e: Exp, b: nat, outer: set<nat>, p: nat, i: Instr, e': Exp)
    requires Shaped(fs, e, b, outer) && LinksOK(fs, e) && p < |fs.code| && !fs.code[p].JMP?
    requires e'.t == e.t && e'.f == e.f && (e'.kind == VJMP ==> e.kind == VJMP && e'.info == e.info)
    ensures var fs' := fs.(code := fs.code[p := i]);
            SameJumps(fs.code, fs'.code, outer + Elems(fs.jpc) + Own(e)) && LinksOK(fs', e')
  {
    var fs', js := fs.(code := fs.code[p := i]), outer + Elems(fs.jpc) + Own(e);
    assert SameJumps(fs.code, fs'.code, js);
    OwnParts(e);
    KeepLinks(fs, e, fs', e'.(kind := VNIL), js);
    if e'.kind == VJMP {
      assert e.info in Own(e) && Elems([e.info]) == {e.info};
      LinkedStays(fs.code, fs'.code, [e.info], js);
    }
  }

  lemma NilLinks(fs: FS, e: Exp, b: nat, outer: set<nat>, reg: nat, e': Exp)
    requires Shaped(fs, e, b, outer) && LinksOK(fs, e) && e'.t == e.t && e'.f == e.f && e'.kind != VJMP
    ensures SameJumps(fs.code, LoadNils(fs, reg, 1).code, outer + Own(e)) && LinksOK(LoadNils(fs, reg, 1), e')
  {
    hide Emit, Shaped, LinksOK;
    EmitIsCode(fs, LOADNIL(reg, 0), LOADNIL(reg, 0));
    if LoadNils(fs, reg, 1) == Code(fs, LOADNIL(reg, 0)) {
      EmitLinks(fs, e, b, outer, [LOADNIL(reg, 0)], e');
    } else {
      var p := |fs.code| - 1;
      ReplaceLinks(fs, e, b, outer, p, LoadNils(fs, reg, 1).code[p], e');
      SameFewer(fs.code, LoadNils(fs, reg, 1).code, outer + Elems(fs.jpc) + Own(e), outer + Own(e));
      assert LoadNils(fs, reg, 1) == fs.(code := fs.code[p := LoadNils(fs, reg, 1).code[p]]);
    }
  }

  lemma ConstantLinks(fs: FS, e: Exp, b: nat, outer: set<nat>, reg: nat, k: nat, e': Exp)
    requires Shaped(fs, e, b, outer) && LinksOK(fs, e) && e'.t == e.t && e'.f == e.f && e'.kind != VJMP
    ensures SameJumps(fs.code, CodeK(fs, reg, k).code, outer + Own(e)) && LinksOK(CodeK(fs, reg, k), e')
  {
    hide Emit, Shaped, LinksOK;
    if k <= MAXARG_Bx {
      EmitIsCode(fs, LOADK(reg, k), LOADK(reg, k));
      EmitLinks(fs, e, b, outer, [LOADK(reg, k)], e');
    } else {
      EmitIsCode(fs, LOADKX(reg), EXTRAARG(k));
      EmitLinks(fs, e, b, outer, [LOADKX(reg), EXTRAARG(k)], e');
    }
  }

  lemma RelocLinks(fs: FS, e: Exp, b: nat, outer: set<nat>, reg: nat, e': Exp)
    requires Shaped(fs, e, b, outer) && LinksOK(fs, e) && e.kind == VRELOCABLE && e'.t == e.t && e'.f == e.f &&
             e'.kind != VJMP
    ensures SameJumps(fs.code, SetA(fs.code, e.info, reg), outer + Own(e)) &&
            LinksOK(fs.(code := SetA(fs.code, e.info, reg)), e')
  {
    var code' := SetA(fs.code, e.info, reg);
    ReplaceLinks(fs, e, b, outer, e.info, code'[e.info], e');
    assert code' == fs.code[e.info := code'[e.info]];
  }

  lemma StayLinks(fs: FS, e: Exp, b: nat, outer: set<nat>, e': Exp)
    requires Shaped(fs, e, b, outer) && LinksOK(fs, e) && e'.t == e.t && e'.f == e.f
    requires e'.kind == VJMP ==> e.kind == VJMP && e'.info == e.info
    ensures SameJumps(fs.code, fs.code, outer + Own(e)) && LinksOK(fs, e')
  {}

  // discharge2reg
  lemma DischargeLinks(fs: FS, e0: Exp, b: nat, outer: set<nat>, reg: nat)
    requires Shaped(fs, e0, b, outer) && LinksOK(fs, e0)
    ensures var (fs', e') := Discharge2Reg(fs, e0, reg); SameJumps(fs.code, fs'.code, outer + Own(e0)) && LinksOK(fs', e')
  {
    var e := DischargeVars(e0);
    var (fs', e') := Discharge2Reg(fs, e0, reg);
    assert Own(e) == Own(e0);
    assert Shaped(fs, e, b, outer) && LinksOK(fs, e);
    hide Shaped, LinksOK, LoadNils, CodeK, Emit, SameJumps, Own;
    match e.kind
    case VNIL => NilLinks(fs, e, b, outer, reg, e');
    case VFALSE =>
      EmitIsCode(fs, LOADBOOL(reg, false, false), LOADBOOL(reg, false, false));
      EmitLinks(fs, e, b, outer, [LOADBOOL(reg, false, false)], e');
    case VTRUE =>
      EmitIsCode(fs, LOADBOOL(reg, true, false), LOADBOOL(reg, true, false));
      EmitLinks(fs, e, b, outer, [LOADBOOL(reg, true, false)], e');
    case VK => ConstantLinks(fs, e, b, outer, reg, e.info, e');
    case VKNUM =>
      var (fs1, i) := AddK(fs, Num(e.nval));
      MoreConstantsShape(fs, e, b, outer, fs1.k);
      assert fs1 == fs.(k := fs1.k);
      ConstantLinks(fs1, e, b, outer, reg, i, e');
    case VRELOCABLE => RelocLinks(fs, e, b, outer, reg, e');
    case VNONRELOC =>
      if reg != e.info {
        EmitIsCode(fs, MOVE(reg, e.info), MOVE(reg, e.info));
        EmitLinks(fs, e, b, outer, [MOVE(reg, e.info)], e');
      } else {
        StayLinks(fs, e, b, outer, e');
      }
    case _ => StayLinks(fs, e, b, outer, e');
  }

  lemma MoreConstantsShape(fs: FS, e: Exp, b: nat, outer: set<nat>, k: seq<Value>)
    requires Shaped(fs, e, b, outer) && LinksOK(fs, e) && fs.k <= k
    ensures Shaped(fs.(k := k), e, b, outer) && LinksOK(fs.(k := k), e)
  {}

  // ----- exp2reg -----

  lemma CodeLabelSame(fs: FS, a: nat, v: bool, skip: bool, js: set<nat>)
    requires fs.jpc == [] && forall j :: j in js ==> j < |fs.code|
    ensures SameJumps(fs.code, CodeLabel(fs, a, v, skip).code, js) && CodeLabel(fs, a, v, skip).jpc == []
  {
    assert CodeLabel(fs, a, v, skip).code == fs.code + [LOADBOOL(a, v, skip)];
  }

  // Both lists patched: everything else stays.
  lemma PatchBothSame(fs: FS, f: seq<nat>, t: seq<nat>, final: nat, reg: nat, p_f: int, p_t: int, js: set<nat>)
    requires Distinct(f) && Distinct(t) && Elems(f) !! Elems(t) && Jumps(fs.code, Elems(f) + Elems(t))
    requires Jumps(fs.code, js) && js !! Elems(f) && js !! Elems(t)
    ensures SameJumps(fs.code, PatchListAux(PatchListAux(fs, f, final, reg, p_f), t, final, reg, p_t).code, js)
  {
    assert (js + Elems(t)) !! Elems(f);
    PatchSame(fs, f, final, reg, p_f, js + Elems(t));
    var fs1 := PatchListAux(fs, f, final, reg, p_f);
    assert Jumps(fs1.code, js) && Jumps(fs1.code, Elems(t));
    PatchSame(fs1, t, final, reg, p_t, js);
  }

  // js: what must stay, apart from the jumps that wait for the end.
  lemma CloseLinks(fs: FS, e: Exp, reg: nat, js: set<nat>)
    requires Distinct(e.f) && Distinct(e.t) && Elems(e.f) !! Elems(e.t) && Jumps(fs.code, Elems(e.f) + Elems(e.t))
    requires Distinct(fs.jpc) && Linked(fs.code, fs.jpc) && Jumps(fs.code, js) && (e.kind == VJMP ==> fs.jpc == [])
    requires js !! Elems(fs.jpc) && (js + Elems(fs.jpc)) !! Elems(e.f) && (js + Elems(fs.jpc)) !! Elems(e.t)
    ensures SameJumps(fs.code, CloseJumps(fs, e, reg).code, js) &&
            Linked(CloseJumps(fs, e, reg).code, CloseJumps(fs, e, reg).jpc)
  {
    hide PatchListAux, Jump;
    if NeedValue(fs.code, e.t) || NeedValue(fs.code, e.f) {
      var all := js + Elems(e.f) + Elems(e.t);
      var (fs1, fj) := if e.kind == VJMP then (fs, []) else Jump(fs);
      if e.kind != VJMP { JumpLinks(fs, all); }
      CloseLoads(fs, fs1, fj, e, reg, js);
    } else {
      var fs1 := GetLabel(fs);
      PatchBothSame(fs1, e.f, e.t, |fs.code|, reg, NO_JUMP, NO_JUMP, js + Elems(fs.jpc));
      LinkedStays(fs.code, CloseJumps(fs, e, reg).code, fs.jpc, js + Elems(fs.jpc));
    }
  }

  lemma CloseLoads(fs: FS, fs1: FS, fj: seq<nat>, e: Exp, reg: nat, js: set<nat>)
    requires Distinct(e.f) && Distinct(e.t) && Elems(e.f) !! Elems(e.t) && Jumps(fs.code, Elems(e.f) + Elems(e.t))
    requires Linked(fs1.code, fj) && fs1.jpc == [] && Jumps(fs.code, js) && |fs.code| <= |fs1.code|
    requires SameJumps(fs.code, fs1.code, js + (Elems(e.f) + Elems(e.t))) &&
             (forall j :: j in js + (Elems(e.f) + Elems(e.t)) + Elems(fj) ==> j < |fs1.code|)
    requires js !! Elems(fj) && (js + Elems(fj)) !! Elems(e.f) && (js + Elems(fj)) !! Elems(e.t)
    ensures var fs2 := CodeLabel(fs1, reg, false, true); var fs4 := PatchToHere(CodeLabel(fs2, reg, true, false), fj);
            var fs' := PatchListAux(PatchListAux(GetLabel(fs4), e.f, |fs4.code|, reg, |fs1.code|), e.t, |fs4.code|, reg, |fs2.code|);
            SameJumps(fs.code, fs'.code, js) && Linked(fs'.code, fs'.jpc)
  {
    hide PatchListAux, Linked, SameJumps, Jumps, Distinct, Elems, CodeLabel;
    var lists := Elems(e.f) + Elems(e.t);
    var all := js + lists + Elems(fj);
    var fs2 := CodeLabel(fs1, reg, false, true);
    var fs3 := CodeLabel(fs2, reg, true, false);
    LoadsSame(fs1, reg, all, fj);
    var fs4 := PatchToHere(fs3, fj);
    SameAgain(fs.code, fs1.code, fs3.code, js, lists, all);
    LinkedStays(fs1.code, fs3.code, fj, all);
    LinkedAreJumps(fs3.code, fj, js);
    PatchBothSame(GetLabel(fs4), e.f, e.t, |fs4.code|, reg, |fs1.code|, |fs2.code|, js + Elems(fj));
    var code' := PatchListAux(PatchListAux(GetLabel(fs4), e.f, |fs4.code|, reg, |fs1.code|), e.t, |fs4.code|, reg, |fs2.code|).code;
    LinkedStays(fs3.code, code', fj, js + Elems(fj));
    SameFewer(fs3.code, code', js + Elems(fj), js);
    SameTrans(fs.code, fs3.code, code', js);
  }

  // The two loads that a list without values needs, and the label after them.
  lemma LoadsSame(fs1: FS, reg: nat, all: set<nat>, fj: seq<nat>)
    requires fs1.jpc == [] && forall j :: j in all ==> j < |fs1.code|
    ensures var fs2 := CodeLabel(fs1, reg, false, true); var fs3 := CodeLabel(fs2, reg, true, false); var fs4 := PatchToHere(fs3, fj);
            SameJumps(fs1.code, fs3.code, all) && fs4.code == fs3.code && fs4.jpc == fj
  {
    var fs2 := CodeLabel(fs1, reg, false, true);
    var fs3 := CodeLabel(fs2, reg, true, false);
    CodeLabelSame(fs1, reg, false, true, all);
    CodeLabelSame(fs2, reg, true, false, all);
    SameTrans(fs1.code, fs2.code, fs3.code, all);
    assert [] + fj == fj;
  }

  lemma SameAgain(a: seq<Instr>, b: seq<Instr>, d: seq<Instr>, js: set<nat>, lists: set<nat>, all: set<nat>)
    requires SameJumps(a, b, js + lists) && SameJumps(b, d, all) && js + lists <= all && Jumps(a, js) && Jumps(a, lists)
    ensures SameJumps(a, d, js) && Jumps(d, js) && Jumps(d, lists)
  {}

  lemma LinkedAreJumps(code: seq<Instr>, l: seq<nat>, js: set<nat>)
    requires Linked(code, l) && Jumps(code, js)
    ensures Jumps(code, js + Elems(l))
  {}

  lemma Exp2RegLinks(fs: FS, e0: Exp, b: nat, outer: set<nat>, reg: nat)
    requires Shaped(fs, e0, b, outer) && LinksOK(fs, e0)
    requires var (fs1, e) := Discharge2Reg(fs, e0, reg); Shaped(fs1, e, b, outer)
    ensures var (fs', e') := Exp2Reg(fs, e0, reg); SameJumps(fs.code, fs'.code, outer) && LinksOK(fs', e')
  {
    hide CloseJumps, Discharge2Reg, Linked, SameJumps, Jumps, Distinct, Elems, Shaped, LinksOK, Own, Concat;
    var (fs1, e) := Discharge2Reg(fs, e0, reg);
    DischargeLinks(fs, e0, b, outer, reg);
    SameFewer(fs.code, fs1.code, outer + Own(e0), outer);
    if e.kind == VJMP {
      JumpJoins(fs1, e, b, outer);
      NoList(Concat(fs1, e.t, [e.info]).code);
      ClosedLinks(fs, fs1, Concat(fs1, e.t, [e.info]), e.(t := e.t + [e.info]), reg, outer);
    } else {
      PartsApart(fs1, e, b, outer);
      LinkedLists(fs1, e);
      SameSelf(fs1.code, outer);
      ClosedLinks(fs, fs1, fs1, e, reg, outer);
    }
    Exp2RegIs(fs, e0, reg);
  }

  lemma NoList(code: seq<Instr>)
    ensures Linked(code, []) && Distinct([]) && Elems([]) == {}
  {}

  lemma SameSelf(code: seq<Instr>, js: set<nat>)
    requires Jumps(code, js)
    ensures SameJumps(code, code, js)
  {}

  lemma LinkedLists(fs: FS, e: Exp)
    requires LinksOK(fs, e)
    ensures Linked(fs.code, fs.jpc) && Linked(fs.code, e.t) && Linked(fs.code, e.f)
  {}

  lemma Exp2RegIs(fs: FS, e0: Exp, reg: nat)
    ensures var (fs1, e1) := Discharge2Reg(fs, e0, reg);
            var fs2 := if e1.kind == VJMP then Concat(fs1, e1.t, [e1.info]) else fs1;
            var e2 := if e1.kind == VJMP then e1.(t := e1.t + [e1.info]) else e1;
            Exp2Reg(fs, e0, reg) == (if HasJumps(e2) then CloseJumps(fs2, e2, reg) else fs2, Exp(VNONRELOC, reg, e1.nval, [], []))
  {}

  lemma ClosedLinks(fs: FS, fs1: FS, fs2: FS, e: Exp, reg: nat, outer: set<nat>)
    requires SameJumps(fs.code, fs1.code, outer) && SameJumps(fs1.code, fs2.code, outer)
    requires Distinct(e.f) && Distinct(e.t) && Elems(e.f) !! Elems(e.t) && Jumps(fs2.code, Elems(e.f) + Elems(e.t))
    requires Distinct(fs2.jpc) && Linked(fs2.code, fs2.jpc) && Jumps(fs2.code, outer) &&
             (e.kind == VJMP ==> fs2.jpc == [])
    requires outer !! Elems(fs2.jpc) && (outer + Elems(fs2.jpc)) !! Elems(e.f) && (outer + Elems(fs2.jpc)) !! Elems(e.t)
    ensures var fs' := if HasJumps(e) then CloseJumps(fs2, e, reg) else fs2;
            SameJumps(fs.code, fs'.code, outer) && LinksOK(fs', Exp(VNONRELOC, reg, e.nval, [], []))
  {
    SameTrans(fs.code, fs1.code, fs2.code, outer);
    if HasJumps(e) {
      CloseLinks(fs2, e, reg, outer);
      SameTrans(fs.code, fs2.code, CloseJumps(fs2, e, reg).code, outer);
    }
    hide CloseJumps, SameJumps, Jumps, Distinct;
  }

  lemma PartsApart(fs: FS, e: Exp, b: nat, outer: set<nat>)
    requires Shaped(fs, e, b, outer)
    ensures Distinct(e.f) && Distinct(e.t) && Elems(e.f) !! Elems(e.t) && Jumps(fs.code, Elems(e.f) + Elems(e.t))
    ensures Distinct(fs.jpc) && Jumps(fs.code, outer) && Jumps(fs.code, Elems(fs.jpc))
    ensures outer !! Elems(fs.jpc) && (outer + Elems(fs.jpc)) !! Elems(e.f) && (outer + Elems(fs.jpc)) !! Elems(e.t)
  {}

  lemma JumpJoins(fs: FS, e: Exp, b: nat, outer: set<nat>)
    requires Shaped(fs, e, b, outer) && LinksOK(fs, e) && e.kind == VJMP
    ensures var fs2 := Concat(fs, e.t, [e.info]); var t := e.t + [e.info];
            SameJumps(fs.code, fs2.code, outer) && fs2.jpc == [] && Linked(fs2.code, t) && Linked(fs2.code, e.f) &&
            Distinct(t) && Distinct(e.f) && Elems(e.f) !! Elems(t) && Jumps(fs2.code, Elems(e.f) + Elems(t)) &&
            Jumps(fs2.code, outer) &&
            outer !! Elems(e.f) && outer !! Elems(t)
  {
    var fs2, t := Concat(fs, e.t, [e.info]), e.t + [e.info];
    assert Elems([e.info]) == {e.info} && Elems(t) == Elems(e.t) + {e.info};
    ConcatLinks(fs, e.t, [e.info], outer + Elems(e.f));
    LinkedStays(fs.code, fs2.code, e.f, outer + Elems(e.f));
    assert e.info in e.t ==> e.info in Elems(e.t);
    forall j | j in Elems(t) ensures j < |fs2.code| && fs2.code[j].JMP? {
      var i :| 0 <= i < |t| && t[i] == j;
    }
  }
}
