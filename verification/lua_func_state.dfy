// The code generator as it is written: FuncState and the expression descriptors are updated in
// place, jump lists are heads of chains threaded through the code.  Each method is proved to do
// what the function of the same name in LuaCodegen says; a syntax error ends the generation.
module LuaFuncState {
  import opened LuaMachine
  import G = LuaCodegen
  import opened LuaCodegenTypes = LuaCodegen
  import opened LuaCodeRuns
  import opened LuaJumpLists

  lemma {:induction false} IndexOfMore(k: seq<Value>, v: Value, w: Value)
    requires w in k
    ensures G.IndexOf(k + [v], w) == G.IndexOf(k, w)
    decreases |k|
  {
    assert (k + [v])[1..] == k[1..] + [v];
    if k[0] != w { IndexOfMore(k[1..], v, w); }
  }

  lemma {:induction false} IndexOfNew(k: seq<Value>, v: Value)
    requires v !in k
    ensures G.IndexOf(k + [v], v) == |k|
    decreases |k|
  {
    if k != [] {
      assert (k + [v])[1..] == k[1..] + [v];
      IndexOfNew(k[1..], v);
    }
  }

  // An expression descriptor (lparser.h).  ts, fs: the members of its two lists.
  class ExpDesc {
    var kind: Kind
    var info: nat
    var nval: int
    var t: int
    var f: int
    ghost var ts: seq<nat>
    ghost var fs: seq<nat>

    ghost function Model(): Exp reads this { Exp(kind, info, nval, ts, fs) }

    ghost predicate Heads() reads this { t == Head(ts) && f == Head(fs) }

    // init_exp
    constructor (kind: Kind, info: nat)
      ensures Model() == Exp(kind, info, 0, [], []) && Heads()
    {
      this.kind, this.info, this.nval, this.t, this.f := kind, info, 0, NO_JUMP, NO_JUMP;
      this.ts, this.fs := [], [];
    }

    method Init(kind: Kind, info: nat, nval: int)
      modifies this
      ensures Model() == Exp(kind, info, nval, [], []) && Heads()
    {
      this.kind, this.info, this.nval, t, f := kind, info, nval, NO_JUMP, NO_JUMP;
      ts, fs := [], [];
    }

    method SetTrue(head: int, ghost list: seq<nat>)
      requires head == Head(list) && Heads()
      modifies this
      ensures Model() == old(Model()).(t := list) && Heads()
    {
      t, ts := head, list;
    }

    method SetFalse(head: int, ghost list: seq<nat>)
      requires head == Head(list) && Heads()
      modifies this
      ensures Model() == old(Model()).(f := list) && Heads()
    {
      f, fs := head, list;
    }

    method Become(kind: Kind, info: nat)
      modifies this
      ensures Model() == old(Model()).(kind := kind, info := info) && t == old(t) && f == old(f)
    {
      this.kind, this.info := kind, info;
    }

    // '*e1 = *e2'
    method Copy(e: ExpDesc)
      requires e.Heads()
      modifies this
      ensures Model() == old(e.Model()) && Heads()
    {
      kind, info, nval, t, f := e.kind, e.info, e.nval, e.t, e.f;
      ts, fs := e.ts, e.fs;
    }

    // luaK_dischargevars, for locals
    method DischargeVars()
      requires Heads()
      modifies this
      ensures Model() == G.DischargeVars(old(Model())) && Heads()
    {
      if kind == VLOCAL { kind := VNONRELOC; }
    }

    predicate HasJumps() reads this { t != f }

    predicate IsNumeral() reads this { kind == VKNUM && t == NO_JUMP && f == NO_JUMP }
  }

  // The table finds each constant where it was entered.
  ghost predicate KeysOK(k: seq<Value>, h: map<Value, nat>) {
    (forall v :: v in h <==> v in k) && forall v :: v in h ==> h[v] == G.IndexOf(k, v)
  }

  const MAXVARS: nat := 200

  class FuncState {
    var code: seq<Instr>
    var jpc: int
    var lasttarget: nat
    var k: seq<Value>
    var h: map<Value, nat>
    var nactvar: nat
    var freereg: nat
    var maxstack: nat
    var ok: bool
    // the members of the list jpc
    ghost var waiting: seq<nat>

    ghost function Model(): FS
      reads this
    {
      FS(code, waiting, lasttarget, k, nactvar, freereg, maxstack, ok)
    }

    ghost predicate Valid()
      reads this
    {
      jpc == Head(waiting) && Linked(code, waiting) && Distinct(waiting) && KeysOK(k, h)
    }

    // open_func, and then n parameters (at most MAXVARS): locals that take the first registers
    constructor (n: nat)
      requires n <= MAXVARS
      ensures Valid() && Model() == FS([], [], 0, [], n, n, if n < 2 then 2 else n, true)
    {
      code, jpc, lasttarget, k, h, waiting := [], NO_JUMP, 0, [], map[], [];
      nactvar, freereg, maxstack, ok := n, n, if n < 2 then 2 else n, true;
    }

    // ----- jump lists -----

    method FixJump(pc: nat, dest: int)
      requires pc < |code|
      modifies this`code, this`ok
      ensures Model() == G.FixJump(old(Model()), pc, dest)
    {
      var offset := dest - (pc + 1);
      if offset > MAXARG_sBx || -offset > MAXARG_sBx { ok := false; }
      code := code[pc := JMP(offset)];
    }

    method GetLabel() returns (pc: nat)
      modifies this`lasttarget
      ensures pc == |code| && Model() == G.GetLabel(old(Model()))
    {
      lasttarget := |code|;
      pc := |code|;
    }

    method GetJump(pc: nat) returns (next: int)
      requires pc < |code| && code[pc].JMP?
      ensures next == NextJump(code, pc)
    {
      var offset := code[pc].sbx;
      next := if offset == NO_JUMP then NO_JUMP else pc + 1 + offset;
    }

    method GetJumpControl(pc: nat) returns (c: nat)
      requires pc < |code|
      ensures c == G.Control(code, pc) && c < |code|
    {
      c := if pc >= 1 && TMode(code[pc - 1]) then pc - 1 else pc;
    }

    // luaK_concat: walks to the end of the first list and links the second one there.
    method Concat(l1: int, l2: int, ghost a: seq<nat>, ghost b: seq<nat>) returns (l: int)
      requires l1 == Head(a) && l2 == Head(b) && Linked(code, a) && Distinct(a)
      modifies this`code, this`ok
      ensures Model() == G.Concat(old(Model()), a, b) && l == Head(a + b)
    {
      if l2 == NO_JUMP { assert a + b == a; return l1; }
      if l1 == NO_JUMP { return l2; }
      var list: nat := l1;
      FollowLinks(code, a, 0);
      var next := GetJump(list);
      ghost var i := 0;
      while next != NO_JUMP
        invariant i < |a| && list == a[i] && code == old(code) && ok == old(ok)
        invariant next == if i + 1 < |a| then a[i + 1] else NO_JUMP
        decreases |a| - i
      {
        list := next;
        i := i + 1;
        FollowLinks(code, a, i);
        next := GetJump(list);
      }
      FixJump(list, l2);
      l := l1;
    }

    // Does any jump of the list come without a value?
    method NeedValue(head: int, ghost l: seq<nat>) returns (need: bool)
      requires head == Head(l) && Linked(code, l) && Distinct(l)
      ensures need == G.NeedValue(code, l)
    {
      var list := head;
      ghost var i := 0;
      while list != NO_JUMP
        invariant i <= |l| && list == Head(l[i..])
        invariant G.NeedValue(code, l[i..]) == G.NeedValue(code, l)
        decreases |l| - i
      {
        var c := GetJumpControl(list);
        if !code[c].TESTSET? { return true; }
        FollowLinks(code, l, i);
        list := GetJump(list);
        assert l[i..][1..] == l[i + 1..];
        i := i + 1;
      }
      need := false;
    }

    method PatchTestReg(node: nat, reg: nat) returns (patched: bool)
      requires node < |code|
      modifies this`code
      ensures code == G.PatchTestReg(old(code), node, reg) && patched == G.ProducesValue(old(code), node)
    {
      var c := GetJumpControl(node);
      var i := code[c];
      if !i.TESTSET? { return false; }
      if reg != NO_REG && reg != i.b {
        code := code[c := TESTSET(reg, i.b, i.c)];
      } else {
        code := code[c := TEST(i.b, i.c)];
      }
      patched := true;
    }

    method RemoveValues(head: int, ghost l: seq<nat>)
      requires head == Head(l) && Linked(code, l) && Distinct(l)
      modifies this`code
      ensures code == G.RemoveValues(old(code), l)
    {
      var list := head;
      ghost var i := 0;
      while list != NO_JUMP
        invariant i <= |l| && list == Head(l[i..]) && Linked(code, l)
        invariant G.RemoveValues(code, l[i..]) == G.RemoveValues(old(code), l)
        decreases |l| - i
      {
        var _ := PatchTestReg(list, NO_REG);
        FollowLinks(code, l, i);
        list := GetJump(list);
        assert l[i..][1..] == l[i + 1..];
        i := i + 1;
      }
    }

    method PatchListAux(head: int, vtarget: int, reg: nat, dtarget: int, ghost l: seq<nat>)
      requires head == Head(l) && Linked(code, l) && Distinct(l)
      modifies this`code, this`ok
      ensures Model() == G.PatchListAux(old(Model()), l, vtarget, reg, dtarget)
    {
      hide G.PatchListAux, G.PatchTestReg, G.FixJump, Linked, RestLinked;
      var list := head;
      ghost var i := 0;
      RestStarts(Model(), l, vtarget, reg, dtarget);
      while list != NO_JUMP
        invariant i <= |l| && list == Head(l[i..]) && RestLinked(code, l, i)
        invariant G.PatchListAux(Model(), l[i..], vtarget, reg, dtarget) == G.PatchListAux(old(Model()), l, vtarget, reg, dtarget)
        decreases |l| - i
      {
        assert i < |l| && list == l[i];
        FollowRest(code, l, i);
        PatchStep(Model(), l, i, vtarget, reg, dtarget);
        var next := GetJump(list);
        var patched := PatchTestReg(list, reg);
        FixJump(list, if patched then vtarget else dtarget);
        list := next;
        i := i + 1;
      }
      RestEnds(Model(), l, i, vtarget, reg, dtarget);
    }

    method DischargeJpc()
      requires Valid()
      modifies this`code, this`ok, this`jpc, this`waiting
      ensures Model() == G.DischargeJpc(old(Model())) && jpc == NO_JUMP
    {
      PatchListAux(jpc, |code|, NO_REG, |code|, waiting);
      jpc, waiting := NO_JUMP, [];
    }

    // luaK_patchtohere
    method PatchToHere(list: int, ghost l: seq<nat>)
      requires Valid() && list == Head(l) && Linked(code, l) && Distinct(l) && Elems(l) !! Elems(waiting)
      modifies this`code, this`ok, this`jpc, this`waiting, this`lasttarget
      ensures Model() == G.PatchToHere(old(Model()), l) && Valid()
    {
      hide Linked, Distinct, Elems, G.Concat, G.PatchToHere;
      PatchToHereIs(Model(), l);
      ghost var m := G.GetLabel(Model());
      ConcatLinks(m, waiting, l, {});
      DistinctBoth(waiting, l);
      var _ := GetLabel();
      jpc := Concat(jpc, list, waiting, l);
      waiting := waiting + l;
    }

    // ----- emitting -----

    method Code(i: Instr)
      requires Valid()
      modifies this`code, this`ok, this`jpc, this`waiting
      ensures Model() == G.Code(old(Model()), i) && Valid()
    {
      DischargeJpc();
      code := code + [i];
    }

    // luaK_jump
    method Jump() returns (j: nat)
      requires Valid()
      modifies this`code, this`ok, this`jpc, this`waiting
      ensures var (m, l) := G.Jump(old(Model())); Model() == m && j == Head(l) && Linked(code, l) && Distinct(l)
      ensures Valid()
    {
      ghost var m, saved := Model(), waiting;
      var hold := jpc;
      JumpLinks(m, {});
      jpc, waiting := NO_JUMP, [];
      j := |code|;
      Code(JMP(NO_JUMP));
      assert Linked(code, [j]);
      var l := Concat(j, hold, [j], saved);
    }

    method CondJump(i: Instr) returns (j: nat)
      requires Valid()
      modifies this`code, this`ok, this`jpc, this`waiting
      ensures var (m, l) := G.CondJump(old(Model()), i); Model() == m && l == [j]
      ensures Valid()
    {
      ghost var m := Model();
      Code(i);
      EmitIsCode(m, i, i);
      j := Jump();
    }

    // luaK_nil
    method LoadNil(from: nat, n: nat)
      requires Valid() && n > 0
      modifies this`code, this`ok, this`jpc, this`waiting
      ensures Model() == G.LoadNils(old(Model()), from, n) && Valid()
    {
      hide Linked, G.Code;
      var first, l := from, from + n - 1;
      if |code| > lasttarget {
        var previous := code[|code| - 1];
        if previous.LOADNIL? {
          var pfrom, pl := previous.a, previous.a + previous.n;
          if pfrom <= from <= pl + 1 || from <= pfrom <= l + 1 {
            if pfrom < first { first := pfrom; }
            if pl > l { l := pl; }
            NotLinked(code, |code| - 1, LOADNIL(first, l - first), waiting);
            code := code[|code| - 1 := LOADNIL(first, l - first)];
            return;
          }
        }
      }
      Code(LOADNIL(from, n - 1));
    }

    // ----- registers and constants -----

    method ReserveRegs(n: nat)
      modifies this`freereg, this`maxstack, this`ok
      ensures Model() == G.ReserveRegs(old(Model()), n)
    {
      var newstack := freereg + n;
      if newstack > maxstack {
        if newstack >= MAXSTACK { ok := false; }
        maxstack := newstack;
      }
      freereg := freereg + n;
    }

    method FreeReg(reg: nat)
      modifies this`freereg
      ensures Model() == G.FreeReg(old(Model()), reg)
    {
      if !ISK(reg) && reg >= nactvar && freereg > 0 { freereg := freereg - 1; }
    }

    method FreeExp(e: ExpDesc)
      modifies this`freereg
      ensures Model() == G.FreeExp(old(Model()), e.Model())
    {
      if e.kind == VNONRELOC { FreeReg(e.info); }
    }

    // addk
    method AddK(v: Value) returns (i: nat)
      requires Valid()
      modifies this`k, this`h
      ensures (Model(), i) == G.AddK(old(Model()), v) && Valid()
    {
      if v in h {
        i := h[v];
      } else {
        i := |k|;
        forall w | w in k ensures G.IndexOf(k + [v], w) == G.IndexOf(k, w) { IndexOfMore(k, v, w); }
        IndexOfNew(k, v);
        h := h[v := i];
        k := k + [v];
      }
    }

    method CodeK(reg: nat, i: nat)
      requires Valid()
      modifies this`code, this`ok, this`jpc, this`waiting
      ensures Model() == G.CodeK(old(Model()), reg, i) && Valid()
    {
      if i <= MAXARG_Bx {
        Code(LOADK(reg, i));
      } else {
        Code(LOADKX(reg));
        Code(EXTRAARG(i));
      }
    }

    // SETARG_A on the instruction of a relocatable expression
    method SetA(pc: nat, reg: nat)
      requires pc < |code| && (code[pc].ARITH? || code[pc].UNARY? || code[pc].NOT?) && Valid()
      modifies this`code
      ensures Model() == old(Model()).(code := G.SetA(old(code), pc, reg)) && Valid()
    {
      NotLinked(code, pc, G.WithA(code[pc], reg), waiting);
      code := code[pc := G.WithA(code[pc], reg)];
    }
  }

  // The members from i on are still linked.
  ghost predicate RestLinked(code: seq<Instr>, l: seq<nat>, i: nat) {
    forall q :: i <= q < |l| ==> l[q] < |code| && code[l[q]] == JMP(LinkTo(l, q))
  }

  lemma FollowRest(code: seq<Instr>, l: seq<nat>, i: nat)
    requires RestLinked(code, l, i) && Distinct(l) && i < |l|
    ensures NextJump(code, l[i]) == Head(l[i + 1..]) && l[i] < |code| && code[l[i]].JMP?
  {
    if i + 1 < |l| { assert l[i + 1] != l[i] && l[i + 1..][0] == l[i + 1]; }
  }

  lemma RestStarts(m: FS, l: seq<nat>, vt: int, reg: nat, dt: int)
    requires Linked(m.code, l)
    ensures RestLinked(m.code, l, 0) && l[0..] == l &&
            G.PatchListAux(m, l[0..], vt, reg, dt) == G.PatchListAux(m, l, vt, reg, dt)
  {
    assert l[0..] == l;
  }

  lemma RestEnds(m: FS, l: seq<nat>, i: nat, vt: int, reg: nat, dt: int)
    requires i <= |l| && l[i..] == []
    ensures G.PatchListAux(m, l[i..], vt, reg, dt) == m
  {}

  lemma PatchToHereIs(m: FS, l: seq<nat>)
    ensures G.PatchToHere(m, l) == G.Concat(G.GetLabel(m), m.jpc, l).(jpc := m.jpc + l)
  {}

  // One member patched.
  lemma PatchStep(m: FS, l: seq<nat>, i: nat, vt: int, reg: nat, dt: int)
    requires i < |l| && RestLinked(m.code, l, i) && Distinct(l)
    ensures var m1 := m.(code := G.PatchTestReg(m.code, l[i], reg));
            var m2 := G.FixJump(m1, l[i], if G.ProducesValue(m.code, l[i]) then vt else dt);
            RestLinked(m2.code, l, i + 1) && G.PatchListAux(m, l[i..], vt, reg, dt) == G.PatchListAux(m2, l[i + 1..], vt, reg, dt)
  {
    assert l[i..][0] == l[i] && l[i..][1..] == l[i + 1..];
    var m1 := m.(code := G.PatchTestReg(m.code, l[i], reg));
    var m2 := G.FixJump(m1, l[i], if G.ProducesValue(m.code, l[i]) then vt else dt);
    forall q | i + 1 <= q < |l| ensures l[q] < |m2.code| && m2.code[l[q]] == JMP(LinkTo(l, q)) {
      assert l[q] != l[i];
    }
  }

  // Replacing an instruction that is no jump cuts no list.
  lemma NotLinked(code: seq<Instr>, p: nat, i: Instr, l: seq<nat>)
    requires Linked(code, l) && p < |code| && !code[p].JMP?
    ensures Linked(code[p := i], l)
  {
    forall q | 0 <= q < |l| ensures l[q] < |code| && code[p := i][l[q]] == JMP(LinkTo(l, q)) {}
  }

  lemma DistinctBoth(a: seq<nat>, b: seq<nat>)
    requires Distinct(a) && Distinct(b) && Elems(a) !! Elems(b)
    ensures Distinct(a + b)
  {
    forall i, j | 0 <= i < j < |a + b| ensures (a + b)[i] != (a + b)[j] {
      if i < |a| <= j { assert a[i] in Elems(a) && b[j - |a|] in Elems(b); }
    }
  }
}
