// How emitting and patching instructions changes the runs of unfinished code.
module LuaCodeRuns {
  import opened LuaMachine
  import opened LuaCodegen

  ghost function Elems(list: seq<nat>): set<nat> { set j | j in list }

  ghost predicate Distinct(s: seq<nat>) {
    forall i, j :: 0 <= i < j < |s| ==> s[i] != s[j]
  }

  // ----- shape of the code -----

  ghost predicate PairedAt(code: seq<Instr>, i: nat)
    requires i < |code|
  {
    (TMode(code[i]) ==> i + 1 < |code| && code[i + 1].JMP?) &&
    (code[i].LOADKX? ==> i + 1 < |code| && code[i + 1].EXTRAARG?)
  }

  // Every test is followed by its jump.
  ghost predicate Paired(code: seq<Instr>) {
    forall i :: 0 <= i < |code| ==> PairedAt(code, i)
  }

  // Known targets do not lie beyond 'last'.
  ghost predicate TargetAt(i: Instr, pc: nat, last: nat) {
    (i.JMP? ==> pc + 1 + i.sbx <= last) && (i.LOADBOOL? && i.skip ==> pc + 2 <= last)
  }

  ghost predicate Targets(code: seq<Instr>, b: nat, last: nat, pend: set<nat>) {
    forall i :: b <= i < |code| && i !in pend ==> TargetAt(code[i], i, last)
  }

  ghost predicate Jumps(code: seq<Instr>, js: set<nat>) {
    forall j :: j in js ==> j < |code| && code[j].JMP?
  }

  // ----- patching -----

  // What patchlistaux does to one instruction.
  ghost predicate PatchedAt(code: seq<Instr>, code': seq<Instr>, list: seq<nat>, vt: int, reg: nat, dt: int, i: nat)
    requires i < |code| == |code'|
  {
    if i in list then code'[i] == JMP((if ProducesValue(code, i) then vt else dt) - (i + 1))
    else if i + 1 in list && code[i].TESTSET? then
      code'[i] == if reg != NO_REG && reg != code[i].b then TESTSET(reg, code[i].b, code[i].c) else TEST(code[i].b, code[i].c)
    else code'[i] == code[i]
  }

  ghost predicate Patched(code: seq<Instr>, code': seq<Instr>, list: seq<nat>, vt: int, reg: nat, dt: int) {
    |code'| == |code| && forall i :: 0 <= i < |code| ==> PatchedAt(code, code', list, vt, reg, dt, i)
  }

  lemma PatchOne(fs: FS, j: nat, vt: int, reg: nat, dt: int)
    requires j < |fs.code| && fs.code[j].JMP?
    ensures var target := if ProducesValue(fs.code, j) then vt else dt;
            Patched(fs.code, FixJump(fs.(code := PatchTestReg(fs.code, j, reg)), j, target).code, [j], vt, reg, dt)
  {}

  lemma PatchThen(code: seq<Instr>, code1: seq<Instr>, code2: seq<Instr>, j: nat, rest: seq<nat>, vt: int, reg: nat,
                  dt: int)
    requires Patched(code, code1, [j], vt, reg, dt) && Patched(code1, code2, rest, vt, reg, dt)
    requires j !in rest && Jumps(code, Elems([j] + rest))
    ensures Patched(code, code2, [j] + rest, vt, reg, dt)
  {
    assert j in Elems([j] + rest) && forall i :: i in rest ==> i in Elems([j] + rest);
    forall i | 0 <= i < |code| ensures PatchedAt(code, code2, [j] + rest, vt, reg, dt, i) {
      assert PatchedAt(code, code1, [j], vt, reg, dt, i) && PatchedAt(code1, code2, rest, vt, reg, dt, i);
      if i > 0 { assert PatchedAt(code, code1, [j], vt, reg, dt, i - 1); }
    }
  }

  lemma {:induction false} PatchListIsPatched(fs: FS, list: seq<nat>, vt: int, reg: nat, dt: int)
    requires Distinct(list) && Jumps(fs.code, Elems(list))
    ensures Patched(fs.code, PatchListAux(fs, list, vt, reg, dt).code, list, vt, reg, dt)
    decreases |list|
  {
    if list != [] {
      var j, rest := list[0], list[1..];
      assert j in Elems(list) && list == [j] + rest;
      PatchOne(fs, j, vt, reg, dt);
      var fs1 := FixJump(fs.(code := PatchTestReg(fs.code, j, reg)), j, if ProducesValue(fs.code, j) then vt else dt);
      forall i | i in Elems(rest) ensures i < |fs1.code| && fs1.code[i].JMP? {
        assert i in Elems(list);
        assert PatchedAt(fs.code, fs1.code, [j], vt, reg, dt, i);
      }
      assert forall k :: 0 <= k < |rest| ==> rest[k] == list[k + 1];
      PatchListIsPatched(fs1, rest, vt, reg, dt);
      PatchThen(fs.code, fs1.code, PatchListAux(fs1, rest, vt, reg, dt).code, j, rest, vt, reg, dt);
    }
  }

  lemma PatchedIsAlike(code: seq<Instr>, code': seq<Instr>, list: seq<nat>, vt: int, reg: nat, dt: int, stops: set<nat>,
                       from: nat, lim: nat)
    requires Patched(code, code', list, vt, reg, dt) && Elems(list) <= stops && lim <= |code|
    ensures Alike(code, code', stops, from, lim)
  {
    forall i | from <= i < lim ensures AlikeAt(code, code', stops, i) {
      assert PatchedAt(code, code', list, vt, reg, dt, i);
      assert i in list ==> i in Elems(list);
      assert i + 1 in list ==> i + 1 in Elems(list);
    }
  }

  // Patching keeps the shape.
  lemma PatchedShape(code: seq<Instr>, code': seq<Instr>, list: seq<nat>, vt: int, reg: nat, dt: int)
    requires Patched(code, code', list, vt, reg, dt) && Paired(code) && Jumps(code, Elems(list))
    ensures Paired(code')
    ensures forall i :: 0 <= i < |code| ==> code'[i].JMP? == code[i].JMP? && TMode(code'[i]) == TMode(code[i])
  {
    forall i | 0 <= i < |code| ensures code'[i].JMP? == code[i].JMP? && TMode(code'[i]) == TMode(code[i]) &&
                                     code'[i].LOADKX? == code[i].LOADKX? && code'[i].EXTRAARG? == code[i].EXTRAARG? {
      assert PatchedAt(code, code', list, vt, reg, dt, i);
      assert i in list ==> i in Elems(list);
    }
    forall i | 0 <= i < |code'| ensures PairedAt(code', i) { assert PairedAt(code, i); }
  }

  // ----- arriving -----

  // The run has come to the next instruction to be emitted, perhaps by a jump that waits for it.
  ghost predicate Arrived(o: Outcome, jpc: seq<nat>, lim: nat) {
    (o.At? && (o.pc == lim || o.pc in jpc)) || (o.Taken? && o.j in jpc)
  }

  ghost predicate Sensible(o: Outcome, stops: set<nat>, lim: nat) {
    match o
    case At(pc, _) => pc == lim || pc in stops
    case Taken(j, _) => j in stops && 0 < j <= lim
    case Err => true
    case Stuck => false
  }

  // ----- emitting -----

  // luaK_code for one or more instructions in a row
  function Emit(fs: FS, tail: seq<Instr>): FS {
    var fs1 := DischargeJpc(fs);
    fs1.(code := fs1.code + tail)
  }

  lemma EmitIsCode(fs: FS, i: Instr, i': Instr)
    ensures Code(fs, i) == Emit(fs, [i])
    ensures CondJump(fs, i) == (Emit(fs, [i, JMP(NO_JUMP)]), [|fs.code| + 1])
    ensures Code(Code(fs, i), i') == Emit(fs, [i, i'])
  {
    var d := DischargeJpc(fs);
    assert d.code + [i] + [i'] == d.code + [i, i'];
    assert d.code + [i] + [JMP(NO_JUMP)] == d.code + [i, JMP(NO_JUMP)];
    var c := Code(fs, i);
    assert c.jpc == [] && |c.code| == |fs.code| + 1;
    assert Code(c.(jpc := []), JMP(NO_JUMP)) == Emit(fs, [i, JMP(NO_JUMP)]);
    assert Concat(Emit(fs, [i, JMP(NO_JUMP)]), [|c.code|], c.jpc) == Emit(fs, [i, JMP(NO_JUMP)]);
    assert [|c.code|] + c.jpc == [|fs.code| + 1];
  }

  // Whoever had arrived goes on at the first new instruction; everyone else is unaffected.
  lemma EmitRuns(env: Env, fs: FS, tail: seq<Instr>, others: set<nat>, b: nat, s: Regs, lim: nat)
    requires Distinct(fs.jpc) && Jumps(fs.code, Elems(fs.jpc)) && Elems(fs.jpc) !! others
    requires |fs.code| <= lim <= |fs.code| + |tail|
    requires Sensible(Run(env, fs.code, others + Elems(fs.jpc), |fs.code|, b, s), others + Elems(fs.jpc), |fs.code|)
    ensures var fs' := Emit(fs, tail);
            var o := Run(env, fs.code, others + Elems(fs.jpc), |fs.code|, b, s);
            var o' := Run(env, fs'.code, others, lim, b, s);
            |fs'.code| == |fs.code| + |tail| &&
            if Arrived(o, fs.jpc, |fs.code|) then o' == Run(env, fs'.code, others, lim, |fs.code|, o.regs) else o' == o
  {
    hide Alike, Emit, Jumps, Distinct;
    var n := |fs.code|;
    var stops := others + Elems(fs.jpc);
    var code' := Emit(fs, tail).code;
    EmittedIs(fs, tail, stops, b);
    AlikeRuns(env, fs.code, code', stops, n, b, s);
    Continue(env, code', stops, n, others, lim, b, s);
  }

  // The pending jumps now lead to the first new instruction, and nothing else changes for a run.
  lemma EmittedIs(fs: FS, tail: seq<Instr>, stops: set<nat>, b: nat)
    requires Distinct(fs.jpc) && Jumps(fs.code, Elems(fs.jpc)) && Elems(fs.jpc) <= stops
    ensures var n := |fs.code|; var code' := Emit(fs, tail).code;
            |code'| == n + |tail| && Alike(fs.code, code', stops, b, n) &&
            forall j :: j in fs.jpc ==> j < n && code'[j] == JMP(n - (j + 1)) && (j > 0 ==> !code'[j - 1].TESTSET?)
  {
    var n := |fs.code|;
    var patched := DischargeJpc(fs);
    PatchListIsPatched(fs, fs.jpc, n, NO_REG, n);
    var code' := Emit(fs, tail).code;
    assert forall k :: 0 <= k < n ==> code'[k] == patched.code[k];
    PatchedIsAlike(fs.code, patched.code, fs.jpc, n, NO_REG, n, stops, b, n);
    forall k | b <= k < n ensures AlikeAt(fs.code, code', stops, k) { assert AlikeAt(fs.code, patched.code, stops, k); }
    forall j | j in fs.jpc ensures j < n && code'[j] == JMP(n - (j + 1)) && (j > 0 ==> !code'[j - 1].TESTSET?) {
      assert j in Elems(fs.jpc);
      assert PatchedAt(fs.code, patched.code, fs.jpc, n, NO_REG, n, j);
      if j > 0 { assert PatchedAt(fs.code, patched.code, fs.jpc, n, NO_REG, n, j - 1); }
    }
  }

  // ----- the generator's own invariant -----

  // pend: every jump whose target is not known yet.
  ghost predicate GenOK(fs: FS, b: nat, pend: set<nat>) {
    Paired(fs.code) && fs.lasttarget <= |fs.code| && b <= |fs.code| &&
    (b == |fs.code| ==> fs.lasttarget == |fs.code|) && (fs.jpc != [] ==> fs.lasttarget == |fs.code|) &&
    Distinct(fs.jpc) && Elems(fs.jpc) <= pend && Jumps(fs.code, pend) && Targets(fs.code, b, fs.lasttarget, pend) &&
    fs.nactvar <= fs.freereg <= fs.maxstack && (fs.ok ==> fs.maxstack < MAXSTACK)
  }

  ghost predicate TailAt(tail: seq<Instr>, n: nat, last: nat, pend: set<nat>, t: nat)
    requires t < |tail|
  {
    PairedAt(tail, t) && (n + t in pend || TargetAt(tail[t], n + t, last)) && (n + t in pend ==> tail[t].JMP?)
  }

  lemma EmitShape(fs: FS, tail: seq<Instr>, b: nat, others: set<nat>, novel: set<nat>)
    requires GenOK(fs, b, others + Elems(fs.jpc)) && Elems(fs.jpc) !! others && tail != []
    requires forall j :: j in novel ==> |fs.code| <= j < |fs.code| + |tail|
    requires forall t :: 0 <= t < |tail| ==> TailAt(tail, |fs.code|, fs.lasttarget, novel, t)
    ensures GenOK(Emit(fs, tail), b, others + novel)
    ensures forall i :: 0 <= i < |fs.code| && i + 1 !in fs.jpc && i !in fs.jpc ==> Emit(fs, tail).code[i] == fs.code[i]
  {
    var n := |fs.code|;
    var d := DischargeJpc(fs);
    PatchListIsPatched(fs, fs.jpc, n, NO_REG, n);
    PatchedShape(fs.code, d.code, fs.jpc, n, NO_REG, n);
    var code' := d.code + tail;
    forall i | 0 <= i < |code'| ensures PairedAt(code', i) {
      if i < n {
        assert PairedAt(d.code, i);
        assert code'[i] == d.code[i];
      } else {
        assert TailAt(tail, n, fs.lasttarget, novel, i - n);
        assert code'[i] == tail[i - n];
      }
    }
    forall i | b <= i < |code'| && i !in others + novel ensures TargetAt(code'[i], i, fs.lasttarget) {
      if i < n {
        assert PatchedAt(fs.code, d.code, fs.jpc, n, NO_REG, n, i);
        assert i in fs.jpc ==> i in Elems(fs.jpc);
        if i !in fs.jpc { assert TargetAt(fs.code[i], i, fs.lasttarget); }
      } else {
        assert TailAt(tail, n, fs.lasttarget, novel, i - n);
      }
    }
    forall j | j in others + novel ensures j < |code'| && code'[j].JMP? {
      if j in others {
        assert fs.code[j].JMP?;
        assert d.code[j].JMP?;
      } else {
        assert TailAt(tail, n, fs.lasttarget, novel, j - n);
      }
    }
    forall i | 0 <= i < n && i + 1 !in fs.jpc && i !in fs.jpc ensures code'[i] == fs.code[i] {
      assert PatchedAt(fs.code, d.code, fs.jpc, n, NO_REG, n, i);
    }
  }
}
