// Open and closed upvalues (lfunc.c), closures and the stacks they capture: the lists are relinked
// in place, and a program cannot tell them from one cell per captured variable.
module UpvalList {
  import opened UpvalCells
  import opened UpvalLinks
  import opened UpvalRefine

  function CellsOf(cell: map<Ref, nat>, refs: seq<Ref>): (r: seq<nat>)
    ensures |r| == |refs| && forall i :: 0 <= i < |refs| ==> r[i] == if refs[i] in cell then cell[refs[i]] else 0
  {
    seq(|refs|, i requires 0 <= i < |refs| => if refs[i] in cell then cell[refs[i]] else 0)
  }

  function AllCells(cell: map<Ref, nat>, closures: seq<seq<Ref>>): (r: seq<seq<nat>>)
    ensures |r| == |closures| && forall c :: 0 <= c < |closures| ==> r[c] == CellsOf(cell, closures[c])
  {
    seq(|closures|, c requires 0 <= c < |closures| => CellsOf(cell, closures[c]))
  }

  // Where an upvalue's 'v' points to.
  datatype Address = StackSlot(th: nat, level: nat) | ItsOwn(r: Ref)

  function Points(mem: Mem, r: Ref): Address {
    if r in mem && mem[r].v.Slot? then StackSlot(mem[r].v.th, mem[r].v.level) else ItsOwn(r)
  }

  // What a closure has captured exists and is not dead.
  ghost predicate HeldAt(mem: Mem, cell: map<Ref, nat>, r: Ref) { r in mem && r > UVHEAD && r in cell && !mem[r].dead }

  ghost predicate Held(mem: Mem, cell: map<Ref, nat>, refs: seq<Ref>) {
    forall u :: 0 <= u < |refs| ==> HeldAt(mem, cell, refs[u])
  }

  ghost predicate AllHeld(mem: Mem, cell: map<Ref, nat>, closures: seq<seq<Ref>>) {
    forall c :: 0 <= c < |closures| ==> Held(mem, cell, closures[c])
  }

  // The same upvalues, but for links: those that were there hold what they held.
  ghost predicate SameUpvals(mem: Mem, cell: map<Ref, nat>, mem': Mem, cell': map<Ref, nat>) {
    forall r :: r in mem && r > UVHEAD && r in cell ==>
      r in mem' && r in cell' && cell'[r] == cell[r] && mem'[r].v == mem[r].v && (!mem[r].dead ==> !mem'[r].dead)
  }

  lemma KeepsHeld(mem: Mem, cell: map<Ref, nat>, mem': Mem, cell': map<Ref, nat>, closures: seq<seq<Ref>>)
    requires AllHeld(mem, cell, closures)
    requires forall r :: r in mem && r > UVHEAD && r in cell && !mem[r].dead ==> r in mem' && !mem'[r].dead && r in cell' && cell'[r] == cell[r]
    ensures AllHeld(mem', cell', closures) && AllCells(cell', closures) == AllCells(cell, closures)
  {
    forall c, u | 0 <= c < |closures| && 0 <= u < |closures[c]| ensures HeldAt(mem', cell', closures[c][u]) {
      assert Held(mem, cell, closures[c]) && HeldAt(mem, cell, closures[c][u]);
    }
    forall c | 0 <= c < |closures| ensures CellsOf(cell', closures[c]) == CellsOf(cell, closures[c]) {
      assert Held(mem, cell, closures[c]);
      assert forall u :: 0 <= u < |closures[c]| ==> HeldAt(mem, cell, closures[c][u]);
    }
  }

  // One upvalue has been freed or closed, and the others are what they were.
  ghost predicate Released(mem: Mem, mem': Mem, uv: Ref, value: Val) {
    (forall r :: r in mem' ==> r in mem) && uv in mem && (uv in mem' <==> !mem[uv].dead) &&
    (uv in mem' ==> mem'[uv].v == Own(value) && !mem'[uv].dead) &&
    forall r :: r in mem && r != uv ==> r in mem' && mem'[r].v == mem[r].v && mem'[r].dead == mem[r].dead
  }

  // An upvalue after luaF_close: closed with its value exactly if it was open at or above the level.
  ghost predicate ClosedAt(mem: Mem, mem': Mem, stacks: seq<seq<Val>>, th: nat, level: nat, r: Ref) {
    r in mem && mem[r].v.Slot? && mem[r].v.th == th && mem[r].v.level >= level &&
    (if mem[r].dead then r !in mem' else r in mem' && mem'[r].v == Own(ValueOf(mem, stacks, r)) && !mem'[r].dead)
  }

  ghost predicate KeptAt(mem: Mem, mem': Mem, r: Ref) {
    r in mem && r in mem' && mem'[r].v == mem[r].v && mem'[r].dead == mem[r].dead
  }

  ghost predicate ClosingFrom(mem: Mem, mem': Mem, stacks: seq<seq<Val>>, th: nat, level: nat) {
    (forall r :: r in mem' ==> r in mem) && forall r :: r in mem && r > UVHEAD ==> KeptAt(mem, mem', r) || ClosedAt(mem, mem', stacks, th, level, r)
  }

  ghost predicate ClosedFrom(mem: Mem, mem': Mem, stacks: seq<seq<Val>>, th: nat, level: nat) {
    (forall r :: r in mem' ==> r in mem) &&
    forall r :: r in mem && r > UVHEAD ==>
      if mem[r].v.Slot? && mem[r].v.th == th && mem[r].v.level >= level then ClosedAt(mem, mem', stacks, th, level, r) else KeptAt(mem, mem', r)
  }

  // Exactly the dead upvalues among the open ones of a thread are gone.
  ghost predicate SweptFrom(mem: Mem, mem': Mem, th: nat) {
    (forall r :: r in mem' <==> r in mem && !(IsOpen(mem, r) && mem[r].v.th == th && mem[r].dead)) &&
    forall r :: r in mem' ==> mem'[r].v == mem[r].v && mem'[r].dead == mem[r].dead
  }

  // The same of the j upvalues in front of the list.
  ghost predicate Sweeping(mem: Mem, mem': Mem, list: seq<Ref>, th: nat, j: nat) {
    j <= |list| && (forall i :: 0 <= i < j ==> list[i] in mem' && !mem'[list[i]].dead) &&
    (forall r :: r in mem' ==> r in mem && mem'[r].v == mem[r].v && mem'[r].dead == mem[r].dead) &&
    forall r :: r in mem ==> r in mem' || (IsOpen(mem, r) && mem[r].v.th == th && mem[r].dead)
  }

  lemma SweepBegins(mem: Mem, list: seq<Ref>, th: nat)
    ensures Sweeping(mem, mem, list, th, 0)
  {}

  lemma SweepOne(mem0: Mem, mem: Mem, mem': Mem, list: seq<Ref>, list': seq<Ref>, th: nat, j: nat)
    requires Sweeping(mem0, mem, list, th, j) && j < |list| && IsOpen(mem, list[j]) && mem[list[j]].v.th == th
    requires if mem[list[j]].dead then list' == Removed(list, j) else list' == list && mem' == mem
    requires mem[list[j]].dead ==> mem'.Keys == mem.Keys - {list[j]}
    requires forall r :: r in mem' && r in mem ==> mem'[r].v == mem[r].v && mem'[r].dead == mem[r].dead
    ensures Sweeping(mem0, mem', list', th, if mem[list[j]].dead then j else j + 1)
  {}

  // The whole state, with the cells that it stands for.
  datatype St = St(mem: Mem, heads: seq<Ref>, stacks: seq<seq<Val>>, closures: seq<seq<Ref>>, unused: Ref,
                   open: seq<seq<Ref>>, ring: seq<Ref>, vars: seq<seq<nat>>, cell: map<Ref, nat>, store: seq<Val>)

  // All that holds while variables are going out of scope.
  ghost predicate CoreOK(s: St) {
    |s.heads| == |s.open| == |s.stacks| == |s.vars| && |s.ring| > 0 &&
    ListsOK(s.mem, s.heads, s.open, s.stacks) && RingOK(s.mem, s.ring) &&
    Refines(s.mem, s.stacks, s.vars, s.cell, s.store) &&
    AllHeld(s.mem, s.cell, s.closures) && UVHEAD in s.mem && s.unused > UVHEAD && forall r :: r in s.mem ==> UVHEAD <= r < s.unused
  }

  ghost predicate Settled(s: St) {
    |s.vars| == |s.stacks| && forall th :: 0 <= th < |s.stacks| ==> |s.vars[th]| == |s.stacks[th]|
  }

  function ViewOf(s: St): Cells { Cells(s.vars, AllCells(s.cell, s.closures), s.store) }

  // ----- linking and unlinking -----

  function LinkedMem(mem: Mem, prev: Ref, uv: Ref, u: UpVal): Mem
    requires UVHEAD in mem && uv !in mem && u.unext == mem[UVHEAD].unext && u.unext in mem &&
             (prev != NULL ==> prev in mem)
  {
    var m := mem[uv := u];
    var m1 := if prev == NULL then m else m[prev := m[prev].(next := uv)];
    var m2 := m1[m1[uv].unext := m1[m1[uv].unext].(uprev := uv)];
    m2[UVHEAD := m2[UVHEAD].(unext := uv)]
  }

  // Each record after luaF_findupval has linked a new upvalue.
  lemma LinkedIn(mem: Mem, prev: Ref, uv: Ref, u: UpVal)
    requires UVHEAD in mem && uv !in mem && u.unext == mem[UVHEAD].unext && u.unext in mem &&
             (prev != NULL ==> prev in mem)
    ensures var mem1 := if prev == NULL then mem[uv := u] else mem[uv := u][prev := mem[prev].(next := uv)]; var mem' := LinkedMem(mem, prev, uv, u);
            mem'.Keys == mem.Keys + {uv} &&
            (forall r :: r in mem' ==> mem'[r].v == mem1[r].v && mem'[r].next == mem1[r].next) &&
            (forall r :: r in mem' ==> mem'[r].unext == (if r == UVHEAD then uv else mem1[r].unext)) &&
            (forall r :: r in mem' ==> mem'[r].uprev == (if r == mem[UVHEAD].unext then uv else mem1[r].uprev)) &&
            (forall r :: r in mem ==> mem'[r].v == mem[r].v && mem'[r].dead == mem[r].dead) && mem'[uv].v == u.v &&
            mem'[uv].dead == u.dead
  {}

  lemma NewOK(s: St, s': St, th: nat, level: nat, prev: Ref, j: nat, uv: Ref, u: UpVal)
    requires CoreOK(s) && IsVar(s.vars, th, level) && j <= |s.open[th]| && uv == s.unused
    requires UVHEAD in s.mem && s.mem[UVHEAD].unext in s.mem && (prev != NULL ==> prev in s.mem)
    requires prev == if j == 0 then NULL else s.open[th][j - 1]
    requires j > 0 ==> IsOpen(s.mem, prev) && s.mem[prev].v.level > level
    requires j < |s.open[th]| ==> IsOpen(s.mem, s.open[th][j]) && s.mem[s.open[th][j]].v.level < level
    requires u == UpVal(Slot(th, level), First(s.open[th], j), UVHEAD, s.mem[UVHEAD].unext, false) &&
             level < |s.stacks[th]|
    requires forall r :: r in s.mem && r > UVHEAD ==> s.mem[r].v != Slot(th, level)
    requires s' == s.(mem := LinkedMem(s.mem, prev, uv, u), heads := if prev == NULL then s.heads[th := uv] else s.heads, unused := uv + 1,
                      open := s.open[th := Inserted(s.open[th], j, uv)], ring := [UVHEAD, uv] + s.ring[1..], cell := s.cell[uv := s.vars[th][level]])
    ensures CoreOK(s') && ViewOf(s') == ViewOf(s) && SameUpvals(s.mem, s.cell, s'.mem, s'.cell)
    ensures HeldAt(s'.mem, s'.cell, uv) && s'.mem[uv].v == Slot(th, level)
  {
    hide ListsOK, RingOK, Refines, AllHeld, LinkedMem;
    LinkedIn(s.mem, prev, uv, u);
    ghost var mem1 := if prev == NULL then s.mem[uv := u] else s.mem[uv := u][prev := s.mem[prev].(next := uv)];
    NewLinks(s.mem, s.heads, s.open, s.stacks, s.ring, th, j, uv, u, mem1, s'.mem);
    NewRefines(s.mem, s'.mem, s.stacks, s.vars, s.cell, s.store, th, level, uv);
    KeepsHeld(s.mem, s.cell, s'.mem, s'.cell, s.closures);
  }

  function UnlinkedMem(mem: Mem, uv: Ref): Mem
    requires uv in mem && mem[uv].unext in mem && mem[uv].uprev in mem
  {
    var m := mem[mem[uv].unext := mem[mem[uv].unext].(uprev := mem[uv].uprev)];
    m[mem[uv].uprev := m[mem[uv].uprev].(unext := mem[uv].unext)]
  }

  function ChainedMem(mem: Mem, prev: Ref, uv: Ref): Mem
    requires uv in mem && (prev != NULL ==> prev in mem)
  {
    if prev == NULL then mem else mem[prev := mem[prev].(next := mem[uv].next)]
  }

  function ReleasedMem(mem: Mem, uv: Ref, value: Val): Mem
    requires uv in mem
  {
    if mem[uv].dead then mem - {uv} else mem[uv := mem[uv].(v := Own(value))]
  }

  lemma UnlinkedFrom(mem: Mem, prev: Ref, uv: Ref)
    requires uv in mem && mem[uv].unext in mem && mem[uv].uprev in mem && mem[uv].unext != uv && mem[uv].uprev != uv
    requires prev != uv && (prev != NULL ==> prev in mem)
    ensures var mem' := UnlinkedMem(ChainedMem(mem, prev, uv), uv);
            mem'.Keys == mem.Keys && mem'[uv] == mem[uv] &&
            (forall r :: r in mem ==> mem'[r].v == mem[r].v && mem'[r].dead == mem[r].dead) &&
            (forall r :: r in mem && r != uv ==> mem'[r].next == if prev != NULL && r == prev then mem[uv].next else mem[r].next) &&
            (forall r :: r in mem && r != uv ==> mem'[r].unext == if r == mem[uv].uprev then mem[uv].unext else mem[r].unext) &&
            (forall r :: r in mem && r != uv ==> mem'[r].uprev == if r == mem[uv].unext then mem[uv].uprev else mem[r].uprev)
  {}

  lemma ReleaseOK(s: St, s': St, th: nat, prev: Ref, j: nat, k: nat, uv: Ref, value: Val)
    requires CoreOK(s) && th < |s.open| && j < |s.open[th]| && uv == s.open[th][j] &&
             prev == if j == 0 then NULL else s.open[th][j - 1]
    requires IsOpen(s.mem, uv) && s.mem[uv].v.th == th && (s.mem[uv].dead || !IsVar(s.vars, th, s.mem[uv].v.level)) &&
             value == ValueOf(s.mem, s.stacks, uv)
    requires 0 < k < |s.ring| && s.ring[k] == uv && s.mem[uv].unext in s.mem && s.mem[uv].uprev in s.mem &&
             s.mem[uv].unext != uv && s.mem[uv].uprev != uv
    requires prev != uv && (prev != NULL ==> prev in s.mem) && (j > 0 ==> prev > UVHEAD)
    requires s' == s.(mem := ReleasedMem(UnlinkedMem(ChainedMem(s.mem, prev, uv), uv), uv, value),
                      heads := if prev == NULL then s.heads[th := s.mem[uv].next] else s.heads,
                      open := s.open[th := Removed(s.open[th], j)], ring := Removed(s.ring, k))
    ensures CoreOK(s') && ViewOf(s') == ViewOf(s) && Released(s.mem, s'.mem, uv, value)
  {
    hide ListsOK, RingOK, Refines, AllHeld, UnlinkedMem;
    UnlinkedFrom(s.mem, prev, uv);
    ReleasedLinks(s, th, prev, j, k, uv, UnlinkedMem(ChainedMem(s.mem, prev, uv), uv), s'.mem);
    if s.mem[uv].dead {
      SamePlaces(s.mem, s'.mem, s.stacks, s.vars, s.cell, s.store);
    } else {
      ClosedRefines(s.mem, s'.mem, s.stacks, s.vars, s.cell, s.store, uv);
    }
    KeepsHeld(s.mem, s.cell, s'.mem, s.cell, s.closures);
  }

  lemma ReleasedLinks(s: St, th: nat, prev: Ref, j: nat, k: nat, uv: Ref, mem1: Mem, mem': Mem)
    requires ListsOK(s.mem, s.heads, s.open, s.stacks) && RingOK(s.mem, s.ring) && th < |s.open| && j < |s.open[th]| &&
             uv == s.open[th][j]
    requires prev == (if j == 0 then NULL else s.open[th][j - 1]) && (j > 0 ==> prev > UVHEAD) && 0 < k < |s.ring| &&
             s.ring[k] == uv && uv in s.mem
    requires mem1.Keys == s.mem.Keys && mem1[uv] == s.mem[uv] && forall r :: r in s.mem ==> mem1[r].v == s.mem[r].v && mem1[r].dead == s.mem[r].dead
    requires forall r :: r in s.mem && r != uv ==> mem1[r].next == if prev != NULL && r == prev then s.mem[uv].next else s.mem[r].next
    requires forall r :: r in s.mem && r != uv ==> mem1[r].unext == if r == s.mem[uv].uprev then s.mem[uv].unext else s.mem[r].unext
    requires forall r :: r in s.mem && r != uv ==> mem1[r].uprev == if r == s.mem[uv].unext then s.mem[uv].uprev else s.mem[r].uprev
    requires mem' == mem1 - {uv} || (exists v :: mem' == mem1[uv := mem1[uv].(v := Own(v))])
    ensures ListsOK(mem', if prev == NULL then s.heads[th := s.mem[uv].next] else s.heads, s.open[th := Removed(s.open[th], j)], s.stacks)
    ensures RingOK(mem', Removed(s.ring, k))
  {
    hide ListsOK, RingOK;
    OldLinks(s.mem, s.heads, s.open, s.stacks, s.ring, th, j, k, mem');
  }

  lemma CoreFacts(s: St)
    requires CoreOK(s)
    ensures |s.heads| == |s.open| == |s.stacks| == |s.vars| && |s.ring| > 0 && UVHEAD in s.mem &&
            s.mem[UVHEAD].unext in s.mem
    ensures s.unused > UVHEAD && s.unused !in s.mem
  {
    HeadInRing(s.mem, s.ring);
  }

  lemma ReleaseFacts(s: St, th: nat, j: nat) returns (k: nat)
    requires CoreOK(s) && th < |s.open| && j < |s.open[th]|
    ensures |s.heads| == |s.open| == |s.stacks| == |s.vars|
    ensures var uv := s.open[th][j];
            IsOpen(s.mem, uv) && s.mem[uv].v.th == th && s.mem[uv].v.level < |s.stacks[th]| && uv > UVHEAD &&
            0 < k < |s.ring| && s.ring[k] == uv && s.mem[uv].unext in s.mem && s.mem[uv].uprev in s.mem &&
            s.mem[uv].unext != uv && s.mem[uv].uprev != uv &&
            (j > 0 ==> s.open[th][j - 1] in s.mem && s.open[th][j - 1] > UVHEAD && s.open[th][j - 1] != uv)
  {
    ListFacts(s.mem, s.heads, s.open, s.stacks, th, j);
    k := InRing(s.mem, s.ring, s.open[th][j]);
    if j > 0 { Descending(s.mem, s.open[th], th, |s.stacks[th]|, j - 1, j); }
  }

  lemma AllClosed(mem0: Mem, s: St, th: nat, level: nat)
    requires CoreOK(s) && th < |s.heads| && ClosingFrom(mem0, s.mem, s.stacks, th, level)
    requires s.heads[th] == NULL || (IsOpen(s.mem, s.heads[th]) && s.mem[s.heads[th]].v.level < level)
    ensures ClosedFrom(mem0, s.mem, s.stacks, th, level)
    ensures forall r :: IsOpen(s.mem, r) && s.mem[r].v.th == th ==> s.mem[r].v.level < level
  {
    forall r | IsOpen(s.mem, r) && s.mem[r].v.th == th ensures s.mem[r].v.level < level {
      var i :| 0 <= i < |s.open[th]| && s.open[th][i] == r;
      ListFacts(s.mem, s.heads, s.open, s.stacks, th, 0);
      if i > 0 { Descending(s.mem, s.open[th], th, |s.stacks[th]|, 0, i); }
    }
  }

  lemma AllSwept(mem0: Mem, s: St, th: nat, j: nat)
    requires CoreOK(s) && th < |s.open| && Sweeping(mem0, s.mem, s.open[th], th, j) && First(s.open[th], j) == NULL
    ensures SweptFrom(mem0, s.mem, th)
  {
    if j < |s.open[th]| { ListFacts(s.mem, s.heads, s.open, s.stacks, th, j); }
    forall r | r in s.mem && IsOpen(s.mem, r) && s.mem[r].v.th == th ensures !s.mem[r].dead {
      assert r in s.open[th];
    }
  }

  lemma NextIs(s: St, th: nat, j: nat)
    requires CoreOK(s) && th < |s.open| && j < |s.open[th]|
    ensures s.open[th][j] in s.mem && s.mem[s.open[th][j]].next == First(s.open[th], j + 1)
    ensures First(Removed(s.open[th], j), j) == First(s.open[th], j + 1)
  {
    ListFacts(s.mem, s.heads, s.open, s.stacks, th, j);
  }

  predicate IsHeld(closures: seq<seq<Ref>>, r: Ref) { exists c :: 0 <= c < |closures| && r in closures[c] }

  lemma HeldStay(mem: Mem, mem': Mem, cell: map<Ref, nat>, closures: seq<seq<Ref>>)
    requires AllHeld(mem, cell, closures) && mem'.Keys == mem.Keys
    requires forall r :: r in mem && IsHeld(closures, r) ==> mem'[r].dead == mem[r].dead
    ensures AllHeld(mem', cell, closures)
  {
    forall c, u | 0 <= c < |closures| && 0 <= u < |closures[c]| ensures HeldAt(mem', cell, closures[c][u]) {
      assert Held(mem, cell, closures[c]) && HeldAt(mem, cell, closures[c][u]);
      assert IsHeld(closures, closures[c][u]);
    }
  }

  lemma OpenInside(s: St, th: nat)
    requires CoreOK(s) && th < |s.stacks|
    ensures forall r :: IsOpen(s.mem, r) && s.mem[r].v.th == th ==> s.mem[r].v.level < |s.stacks[th]|
  {
    forall r | IsOpen(s.mem, r) && s.mem[r].v.th == th ensures s.mem[r].v.level < |s.stacks[th]| {
      var i :| 0 <= i < |s.open[th]| && s.open[th][i] == r;
      ListFacts(s.mem, s.heads, s.open, s.stacks, th, i);
    }
  }

  // What a closure holds: the cell's value, and a variable's own slot while it is open.
  lemma HeldFacts(s: St, c: nat, u: nat)
    requires CoreOK(s) && Settled(s) && c < |s.closures| && u < |s.closures[c]|
    ensures var r := s.closures[c][u];
            HeldAt(s.mem, s.cell, r) && s.cell[r] < |s.store| && ValueOf(s.mem, s.stacks, r) == s.store[s.cell[r]]
    ensures var r := s.closures[c][u];
            s.mem[r].v.Slot? ==> IsVar(s.vars, s.mem[r].v.th, s.mem[r].v.level) && s.vars[s.mem[r].v.th][s.mem[r].v.level] == s.cell[r] &&
                                 s.mem[r].v.th < |s.stacks| && s.mem[r].v.level < |s.stacks[s.mem[r].v.th]|
  {
    var r := s.closures[c][u];
    assert Held(s.mem, s.cell, s.closures[c]) && HeldAt(s.mem, s.cell, r);
    UpvalFacts(s.mem, s.stacks, s.vars, s.cell, s.store, r);
    if s.mem[r].v.Slot? {
      assert IsOpen(s.mem, r);
      OpenInside(s, s.mem[r].v.th);
    }
  }

  lemma OwnKeepsLinks(mem: Mem, mem': Mem, heads: seq<Ref>, open: seq<seq<Ref>>, stacks: seq<seq<Val>>, ring: seq<Ref>,
                      r: Ref)
    requires ListsOK(mem, heads, open, stacks) && RingOK(mem, ring) && UVHEAD in mem && r in mem && r > UVHEAD &&
             mem[r].v.Own?
    requires r in mem' && mem' == mem[r := mem[r].(v := mem'[r].v)] && mem'[r].v.Own?
    ensures ListsOK(mem', heads, open, stacks) && RingOK(mem', ring)
  {
    assert forall q :: IsOpen(mem', q) <==> IsOpen(mem, q);
    SameRing(mem, mem', ring);
    forall th, j | 0 <= th < |open| && 0 <= j < |open[th]| ensures OpenAt(mem', open[th], th, |stacks[th]|, j) {
      ListFacts(mem, heads, open, stacks, th, j);
    }
  }

  lemma NoneHeld(mem: Mem, cell: map<Ref, nat>)
    ensures Held(mem, cell, []) && CellsOf(cell, []) == []
  {}

  lemma SameSelf(mem: Mem, cell: map<Ref, nat>)
    ensures SameUpvals(mem, cell, mem, cell)
  {}

  lemma KeepsOne(mem: Mem, cell: map<Ref, nat>, mem': Mem, cell': map<Ref, nat>, refs: seq<Ref>)
    requires Held(mem, cell, refs) && SameUpvals(mem, cell, mem', cell')
    ensures Held(mem', cell', refs) && CellsOf(cell', refs) == CellsOf(cell, refs)
  {
    assert forall u :: 0 <= u < |refs| ==> HeldAt(mem, cell, refs[u]);
  }

  lemma OneHeld(mem: Mem, cell: map<Ref, nat>, refs: seq<Ref>, uv: Ref)
    requires Held(mem, cell, refs) && HeldAt(mem, cell, uv)
    ensures Held(mem, cell, refs + [uv]) && CellsOf(cell, refs + [uv]) == CellsOf(cell, refs) + [cell[uv]]
  {}

  lemma MoreHeld(s: St, refs: seq<Ref>)
    requires CoreOK(s) && Held(s.mem, s.cell, refs)
    ensures CoreOK(s.(closures := s.closures + [refs])) &&
            AllCells(s.cell, s.closures + [refs]) == AllCells(s.cell, s.closures) + [CellsOf(s.cell, refs)]
  {}

  // All upvalues are there: the new closure captures what its description says.
  lemma AllCaptured(view: Cells, c: Cmd, cells: seq<nat>)
    requires c.MakeClosure? && c.th < |view.vars| &&
             DescsOK(c.descs, c.base, |view.vars[c.th]|, |Outer(view.closures, c.encl)|)
    requires cells == Captured(view.vars[c.th], Outer(view.closures, c.encl), c.base, c.descs)[..|c.descs|]
    ensures After(view, c) == view.(closures := view.closures + [cells])
  {
    var all := Captured(view.vars[c.th], Outer(view.closures, c.encl), c.base, c.descs);
    assert all[..|c.descs|] == all;
  }

  // An upvalue points to a variable's slot exactly if it stands for the variable.
  lemma SlotIsCell(s: St, c: nat, u: nat, th: nat, level: nat)
    requires CoreOK(s) && Settled(s) && c < |s.closures| && u < |s.closures[c]| && IsVar(s.vars, th, level)
    ensures Points(s.mem, s.closures[c][u]) == StackSlot(th, level) <==>
            AllCells(s.cell, s.closures)[c][u] == s.vars[th][level]
  {
    HeldFacts(s, c, u);
    UpvalFacts(s.mem, s.stacks, s.vars, s.cell, s.store, s.closures[c][u]);
  }

  // Two closures share a pointer exactly if they share the cell.
  lemma SamePointer(s: St, c: nat, u: nat, c': nat, u': nat)
    requires CoreOK(s) && Settled(s) && c < |s.closures| && u < |s.closures[c]| && c' < |s.closures| &&
             u' < |s.closures[c']|
    ensures Points(s.mem, s.closures[c][u]) == Points(s.mem, s.closures[c'][u']) <==>
            AllCells(s.cell, s.closures)[c][u] == AllCells(s.cell, s.closures)[c'][u']
  {
    HeldFacts(s, c, u);
    HeldFacts(s, c', u');
  }

  lemma FewerHeld(mem: Mem, cell: map<Ref, nat>, closures: seq<seq<Ref>>, c: nat)
    requires AllHeld(mem, cell, closures) && c < |closures|
    ensures AllHeld(mem, cell, closures[c := []]) &&
            AllCells(cell, closures[c := []]) == AllCells(cell, closures)[c := []]
  {
    var closures' := closures[c := []];
    forall k | 0 <= k < |closures'| ensures Held(mem, cell, closures'[k]) { assert Held(mem, cell, closures[k]); }
    assert CellsOf(cell, []) == [];
  }

  // Everything that a variable or a closure names has a cell.
  lemma ViewSizes(s: St)
    requires CoreOK(s) && Settled(s)
    ensures |s.vars| == |s.stacks| && forall th :: 0 <= th < |s.stacks| ==> |s.vars[th]| == |s.stacks[th]|
    ensures forall th: nat, i: nat :: IsVar(s.vars, th, i) ==> s.vars[th][i] < |s.store|
    ensures forall c, u :: 0 <= c < |s.closures| && 0 <= u < |s.closures[c]| ==>
                            AllCells(s.cell, s.closures)[c][u] < |s.store|
  {
    forall th: nat, i: nat | IsVar(s.vars, th, i) ensures s.vars[th][i] < |s.store| { VarFacts(s.mem, s.stacks, s.vars, s.cell, s.store, th, i); }
    forall c, u | 0 <= c < |s.closures| && 0 <= u < |s.closures[c]| ensures AllCells(s.cell, s.closures)[c][u] < |s.store| { HeldFacts(s, c, u); }
  }

  class LuaState {
    var mem: Mem
    var openupval: seq<Ref>
    var stacks: seq<seq<Val>>
    var closures: seq<seq<Ref>>
    var unused: Ref  // the next address to be given out
    ghost var open: seq<seq<Ref>>
    ghost var ring: seq<Ref>
    ghost var vars: seq<seq<nat>>
    ghost var cell: map<Ref, nat>
    ghost var store: seq<Val>

    ghost function Snap(): St
      reads this
    {
      St(mem, openupval, stacks, closures, unused, open, ring, vars, cell, store)
    }

    ghost predicate Core()
      reads this
    {
      CoreOK(Snap())
    }

    ghost predicate Valid()
      reads this
    {
      Core() && Settled(Snap())
    }

    // The cells that the state stands for.
    ghost function View(): Cells
      reads this
    {
      ViewOf(Snap())
    }

    constructor (threads: nat)
      ensures Valid() && View() == Cells(seq(threads, _ => []), [], [])
    {
      mem := map[UVHEAD := UpVal(Own(Nil), NULL, UVHEAD, UVHEAD, false)];
      openupval, stacks, closures := seq(threads, _ => NULL), seq(threads, _ => []), [];
      unused := 2;
      open, ring, vars, cell, store := seq(threads, _ => []), [UVHEAD], seq(threads, _ => []), map[], [];
    }

    // ----- luaF_findupval -----

    method FindUpval(th: nat, level: nat) returns (uv: Ref)
      requires Valid() && IsVar(vars, th, level)
      modifies this`mem, this`openupval, this`unused, this`open, this`ring, this`cell
      ensures Valid() && SameUpvals(old(mem), old(cell), mem, cell) && View() == old(View())
      ensures HeldAt(mem, cell, uv) && mem[uv].v == Slot(th, level) && cell[uv] == vars[th][level]
      ensures forall r :: r in old(mem) && r > UVHEAD && old(mem)[r].v == Slot(th, level) ==> uv == r
    {
      hide ListsOK, RingOK, Refines, View;
      VarInSlot(th, level);
      HeadIs(th);
      var prev, p := NULL, openupval[th];
      ghost var j := 0;
      while p != NULL && mem[p].v.level >= level
        invariant Snap() == old(Snap()) && j <= |open[th]| && p == First(open[th], j) &&
                  prev == (if j == 0 then NULL else open[th][j - 1])
        invariant p != NULL ==> IsOpen(mem, p)
        invariant j > 0 ==> IsOpen(mem, prev) && mem[prev].v.level > level
        decreases |open[th]| - j
      {
        ListFacts(mem, openupval, open, stacks, th, j);
        if mem[p].v.level == level {
          uv := p;
          FoundThere(th, level, p);
          if mem[p].dead { Resurrect(p); }
          return;
        }
        prev, p := p, mem[p].next;
        j := j + 1;
      }
      if j < |open[th]| { ListFacts(mem, openupval, open, stacks, th, j); }
      forall r | r in mem && r > UVHEAD ensures mem[r].v != Slot(th, level) { NoneAtLevel(mem, openupval, open, stacks, th, j, level, r); }
      uv := NewUpval(th, level, prev, p, j);
    }

    lemma HeadIs(th: nat)
      requires Core() && th < |stacks|
      ensures |openupval| == |open| == |stacks| && openupval[th] == First(open[th], 0)
      ensures openupval[th] != NULL ==> IsOpen(mem, openupval[th]) && mem[openupval[th]].v.th == th
    {
      if open[th] != [] { ListFacts(mem, openupval, open, stacks, th, 0); }
    }

    // The upvalue of a slot stands for its variable, and is the only one that does.
    lemma FoundThere(th: nat, level: nat, uv: Ref)
      requires Valid() && IsVar(vars, th, level) && uv in mem && uv > UVHEAD && mem[uv].v == Slot(th, level)
      ensures uv in cell && cell[uv] == vars[th][level]
      ensures forall r :: r in mem && r > UVHEAD && mem[r].v == Slot(th, level) ==> uv == r
    {
      UpvalFacts(mem, stacks, vars, cell, store, uv);
      forall r | r in mem && r > UVHEAD && mem[r].v == Slot(th, level) ensures uv == r { UpvalFacts(mem, stacks, vars, cell, store, r); }
    }

    // changewhite
    method Resurrect(r: Ref)
      requires Valid() && r in mem && r > UVHEAD
      modifies this`mem
      ensures Valid() && mem == old(mem)[r := old(mem)[r].(dead := false)] && View() == old(View())
    {
      hide ListsOK, RingOK, Refines;
      ghost var mem0 := mem;
      mem := mem[r := mem[r].(dead := false)];
      SameLists(mem0, mem, openupval, open, stacks);
      SameRing(mem0, mem, ring);
      SamePlaces(mem0, mem, stacks, vars, cell, store);
    }

    // The upvalue is not there: a new one goes between prev and p, and behind uvhead.
    method NewUpval(th: nat, level: nat, prev: Ref, p: Ref, ghost j: nat) returns (uv: Ref)
      requires Valid() && IsVar(vars, th, level) && j <= |open[th]|
      requires p == First(open[th], j) && prev == if j == 0 then NULL else open[th][j - 1]
      requires j > 0 ==> IsOpen(mem, prev) && mem[prev].v.level > level
      requires j < |open[th]| ==> IsOpen(mem, p) && mem[p].v.level < level
      requires forall r :: r in mem && r > UVHEAD ==> mem[r].v != Slot(th, level)
      modifies this`mem, this`openupval, this`unused, this`open, this`ring, this`cell
      ensures Valid() && SameUpvals(old(mem), old(cell), mem, cell) && View() == old(View())
      ensures HeldAt(mem, cell, uv) && mem[uv].v == Slot(th, level) && cell[uv] == vars[th][level]
    {
      hide CoreOK, LinkedMem, ViewOf;
      ghost var s := Snap();
      CoreFacts(s);
      VarInSlot(th, level);
      uv := unused;
      var u := UpVal(Slot(th, level), p, UVHEAD, mem[UVHEAD].unext, false);
      Link(th, prev, uv, u);
      unused := unused + 1;
      open, ring := open[th := Inserted(open[th], j, uv)], [UVHEAD, uv] + ring[1..];
      cell := cell[uv := vars[th][level]];
      NewOK(s, Snap(), th, level, prev, j, uv, u);
    }

    method Link(th: nat, prev: Ref, uv: Ref, u: UpVal)
      requires UVHEAD in mem && uv !in mem && u.unext == mem[UVHEAD].unext && u.unext in mem &&
               (prev != NULL ==> prev in mem) && th < |openupval|
      modifies this`mem, this`openupval
      ensures mem == LinkedMem(old(mem), prev, uv, u) &&
              openupval == if prev == NULL then old(openupval)[th := uv] else old(openupval)
    {
      mem := mem[uv := u];
      if prev == NULL { openupval := openupval[th := uv]; } else { mem := mem[prev := mem[prev].(next := uv)]; }
      mem := mem[mem[uv].unext := mem[mem[uv].unext].(uprev := uv)];
      mem := mem[UVHEAD := mem[UVHEAD].(unext := uv)];
    }

    lemma VarInSlot(th: nat, level: nat)
      requires Valid() && IsVar(vars, th, level)
      ensures th < |open| == |stacks| == |openupval| == |vars| && level < |stacks[th]|
    {}

    // ----- luaF_close -----

    // unlinkupval
    method Unlink(uv: Ref)
      requires uv in mem && mem[uv].unext in mem && mem[uv].uprev in mem && mem[uv].unext != uv && mem[uv].uprev != uv
      modifies this`mem
      ensures mem == UnlinkedMem(old(mem), uv) && uv in mem && mem[uv] == old(mem[uv])
    {
      mem := mem[mem[uv].unext := mem[mem[uv].unext].(uprev := mem[uv].uprev)];
      mem := mem[mem[uv].uprev := mem[mem[uv].uprev].(unext := mem[uv].unext)];
    }

    // The j-th open upvalue of a thread leaves the lists; if it is dead it is freed, else it keeps
    // its value for itself.
    method Release(th: nat, prev: Ref, uv: Ref, ghost j: nat)
      requires Core() && th < |open| && j < |open[th]| && uv == open[th][j] &&
               prev == if j == 0 then NULL else open[th][j - 1]
      requires IsOpen(mem, uv) && (mem[uv].dead || !IsVar(vars, th, mem[uv].v.level))
      modifies this`mem, this`openupval, this`open, this`ring
      ensures Core() && View() == old(View()) && Released(old(mem), mem, uv, ValueOf(old(mem), stacks, uv))
      ensures open == old(open)[th := Removed(old(open[th]), j)]
    {
      hide CoreOK, ViewOf, UnlinkedMem;
      ghost var s := Snap();
      ghost var k := ReleaseFacts(s, th, j);
      var value := stacks[th][mem[uv].v.level];
      if prev == NULL { openupval := openupval[th := mem[uv].next]; } else { mem := mem[prev := mem[prev].(next := mem[uv].next)]; }
      Unlink(uv);
      if mem[uv].dead { mem := mem - {uv}; } else { mem := mem[uv := mem[uv].(v := Own(value))]; }
      open, ring := open[th := Removed(open[th], j)], Removed(ring, k);
      ReleaseOK(s, Snap(), th, prev, j, k, uv, value);
    }

    // The variables from 'level' on are gone; their upvalues close.
    method Close(th: nat, level: nat)
      requires Core() && th < |stacks| && |vars[th]| <= level
      modifies this`mem, this`openupval, this`open, this`ring
      ensures Core() && View() == old(View()) && ClosedFrom(old(mem), mem, stacks, th, level)
      ensures forall r :: IsOpen(mem, r) && mem[r].v.th == th ==> mem[r].v.level < level
    {
      hide CoreOK, ViewOf;
      ghost var mem0 := mem;
      HeadIs(th);
      while openupval[th] != NULL && mem[openupval[th]].v.level >= level
        invariant Core() && View() == old(View()) && ClosingFrom(mem0, mem, stacks, th, level)
        invariant |openupval| == |open| == |stacks| && openupval[th] == First(open[th], 0)
        invariant openupval[th] != NULL ==> IsOpen(mem, openupval[th]) && mem[openupval[th]].v.th == th
        decreases |open[th]|
      {
        var uv := openupval[th];
        Release(th, NULL, uv, 0);
        HeadIs(th);
      }
      AllClosed(mem0, Snap(), th, level);
    }

    // sweepwholelist on a thread's open upvalues: the dead ones are freed
    method Sweep(th: nat)
      requires Valid() && th < |stacks|
      modifies this`mem, this`openupval, this`open, this`ring
      ensures Valid() && View() == old(View()) && SweptFrom(old(mem), mem, th)
    {
      hide CoreOK, ViewOf, SweptFrom;
      HeadIs(th);
      var prev, p := NULL, openupval[th];
      ghost var j, mem0 := 0, mem;
      SweepBegins(mem, open[th], th);
      while p != NULL
        invariant Valid() && View() == old(View()) && |open| == |stacks| && j <= |open[th]|
        invariant p == First(open[th], j) && prev == (if j == 0 then NULL else open[th][j - 1])
        invariant Sweeping(mem0, mem, open[th], th, j)
        decreases |open[th]| - j
      {
        hide Sweeping;
        ghost var mem1, list := mem, open[th];
        ghost var k := ReleaseFacts(Snap(), th, j);
        var next := mem[p].next;
        NextIs(Snap(), th, j);
        if mem[p].dead {
          Release(th, prev, p, j);
        } else {
          prev := p;
          j := j + 1;
        }
        SweepOne(mem0, mem1, mem, list, open[th], th, if mem1[p].dead then j else j - 1);
        p := next;
      }
      AllSwept(mem0, Snap(), th, j);
    }

    // A closed upvalue that is dead is freed from 'allgc'.
    method Reap(r: Ref)
      requires Valid() && r in mem && r > UVHEAD && mem[r].v.Own? && mem[r].dead
      modifies this`mem
      ensures Valid() && View() == old(View()) && mem == old(mem) - {r}
    {
      hide ListsOK, RingOK, Refines, AllHeld;
      ghost var mem0 := mem;
      mem := mem - {r};
      ClosedGoes(mem0, openupval, open, stacks, ring, r);
      SamePlaces(mem0, mem, stacks, vars, cell, store);
      KeepsHeld(mem0, cell, mem, cell, closures);
    }

    // The collector has found that no closure holds these.
    method Collect(rs: set<Ref>)
      requires Valid()
      modifies this`mem
      ensures Valid() && View() == old(View()) && mem.Keys == old(mem).Keys
      ensures forall r :: r in mem ==> mem[r].v == old(mem)[r].v
      ensures forall r :: r in mem ==> (mem[r].dead <==> old(mem)[r].dead || (r in rs && !IsHeld(closures, r)))
    {
      hide ListsOK, RingOK, Refines, AllHeld;
      ghost var mem0 := mem;
      mem := map r | r in mem :: if r in rs && !IsHeld(closures, r) then mem[r].(dead := true) else mem[r];
      SameLists(mem0, mem, openupval, open, stacks);
      SameRing(mem0, mem, ring);
      SamePlaces(mem0, mem, stacks, vars, cell, store);
      HeldStay(mem0, mem, cell, closures);
    }

    // ----- the program -----

    method Declare(th: nat, v: Val)
      requires Valid() && th < |stacks|
      modifies this`stacks, this`vars, this`store
      ensures Valid() && View() == After(old(View()), Cmd.Declare(th, v))
    {
      hide RingOK, Refines, AllHeld;
      OpenInside(Snap(), th);
      NewVar(mem, stacks, vars, cell, store, th, v);
      LongerStack(mem, openupval, open, stacks, th, v);
      stacks := stacks[th := stacks[th] + [v]];
      vars, store := vars[th := vars[th] + [|store|]], store + [v];
    }

    // The end of a block: luaF_close, and the slots are free.
    method Leave(th: nat, level: nat)
      requires Valid() && th < |stacks| && level <= |stacks[th]|
      modifies this
      ensures Valid() && View() == After(old(View()), Cmd.Leave(th, level)) &&
              ClosedFrom(old(mem), mem, old(stacks), th, level)
    {
      hide ListsOK, RingOK, Refines, AllHeld, AllCells, ClosedFrom;
      FewerVars(mem, stacks, vars, cell, store, th, level);
      vars := vars[th := vars[th][..level]];
      Close(th, level);
      FewerSlots(mem, stacks, vars, cell, store, th, level);
      ShorterStack(mem, openupval, open, stacks, th, level);
      stacks := stacks[th := stacks[th][..level]];
    }

    method Assign(th: nat, i: nat, v: Val)
      requires Valid() && th < |stacks| && i < |stacks[th]|
      modifies this`stacks, this`store
      ensures Valid() && View() == After(old(View()), Cmd.Assign(th, i, v))
    {
      hide ListsOK, RingOK, Refines, AllHeld;
      SetVar(mem, stacks, vars, cell, store, th, i, v);
      SameSizes(mem, openupval, open, stacks, stacks[th := stacks[th][i := v]]);
      store := store[vars[th][i] := v];
      stacks := stacks[th := stacks[th][i := v]];
    }

    method Fetch(th: nat, i: nat) returns (v: Val)
      requires Valid() && th < |stacks| && i < |stacks[th]|
      ensures [v] == Answer(View(), Cmd.Fetch(th, i))
    {
      VarFacts(mem, stacks, vars, cell, store, th, i);
      v := stacks[th][i];
    }

    method SetUpval(c: nat, u: nat, v: Val)
      requires Valid() && c < |closures| && u < |closures[c]|
      modifies this`mem, this`stacks, this`store
      ensures Valid() && View() == After(old(View()), Cmd.SetUpval(c, u, v))
    {
      hide ListsOK, RingOK, Refines, AllHeld;
      var r := closures[c][u];
      HeldFacts(Snap(), c, u);
      match mem[r].v
      case Slot(th, level) =>
        SetVar(mem, stacks, vars, cell, store, th, level, v);
        SameSizes(mem, openupval, open, stacks, stacks[th := stacks[th][level := v]]);
        store := store[cell[r] := v];
        stacks := stacks[th := stacks[th][level := v]];
      case Own(_) =>
        ghost var mem0 := mem;
        SetClosed(mem, stacks, vars, cell, store, r, v);
        store := store[cell[r] := v];
        mem := mem[r := mem[r].(v := Own(v))];
        OwnKeepsLinks(mem0, mem, openupval, open, stacks, ring, r);
        KeepsHeld(mem0, cell, mem, cell, closures);
    }

    method GetUpval(c: nat, u: nat) returns (v: Val)
      requires Valid() && c < |closures| && u < |closures[c]|
      ensures [v] == Answer(View(), Cmd.GetUpval(c, u))
    {
      hide ListsOK, RingOK, Refines, AllHeld;
      var r := closures[c][u];
      HeldFacts(Snap(), c, u);
      v := match mem[r].v
           case Slot(th, level) => stacks[th][level]
           case Own(own) => own;
    }

    // pushclosure
    method MakeClosure(th: nat, base: nat, descs: seq<Desc>, encl: nat)
      requires Valid() && th < |stacks| && DescsOK(descs, base, |stacks[th]|, |Outer(closures, encl)|)
      modifies this`mem, this`openupval, this`unused, this`open, this`ring, this`cell, this`closures
      ensures Valid() && View() == After(old(View()), Cmd.MakeClosure(th, base, descs, encl))
    {
      hide CoreOK, AllHeld, Held;
      var upvals: seq<Ref> := [];
      ghost var view := View();
      NoneHeld(mem, cell);
      while |upvals| < |descs|
        invariant |upvals| <= |descs| && Valid() && View() == view && th < |stacks| && stacks == old(stacks) &&
                  closures == old(closures) && vars == old(vars)
        invariant Held(mem, cell, upvals) && DescsOK(descs, base, |vars[th]|, |Outer(view.closures, encl)|)
        invariant CellsOf(cell, upvals) == Captured(vars[th], Outer(view.closures, encl), base, descs)[..|upvals|]
      {
        var d := descs[|upvals|];
        ghost var mem0, cell0 := mem, cell;
        var uv;
        if d.instack {
          uv := FindUpval(th, base + d.idx);
        } else {
          uv := Outer(closures, encl)[d.idx];
          HeldFacts(Snap(), encl, d.idx);
          SameSelf(mem, cell);
        }
        KeepsOne(mem0, cell0, mem, cell, upvals);
        OneHeld(mem, cell, upvals, uv);
        upvals := upvals + [uv];
      }
      assert upvals == upvals[..|descs|];
      MoreHeld(Snap(), upvals);
      closures := closures + [upvals];
      AllCaptured(view, Cmd.MakeClosure(th, base, descs, encl), CellsOf(cell, upvals));
    }

    // getcached: pointers decide whether a closure has the upvalues that a new one would get.
    method Cached(c: nat, th: nat, base: nat, descs: seq<Desc>, encl: nat) returns (same: bool)
      requires Valid() && c < |closures| && th < |stacks| && |closures[c]| == |descs|
      requires DescsOK(descs, base, |stacks[th]|, |Outer(closures, encl)|)
      ensures same <==> View().closures[c] == Captured(vars[th], Outer(View().closures, encl), base, descs)
    {
      hide CoreOK;
      ghost var wanted := Captured(vars[th], Outer(View().closures, encl), base, descs);
      var i := 0;
      while i < |descs|
        invariant i <= |descs| && forall q :: 0 <= q < i ==> View().closures[c][q] == wanted[q]
      {
        var d := descs[i];
        var v := if d.instack then StackSlot(th, base + d.idx) else Points(mem, Outer(closures, encl)[d.idx]);
        HeldFacts(Snap(), c, i);
        if d.instack { SlotIsCell(Snap(), c, i, th, base + d.idx); } else { SamePointer(Snap(), c, i, encl, d.idx); }
        if Points(mem, closures[c][i]) != v {
          assert View().closures[c][i] != wanted[i];
          return false;
        }
        i := i + 1;
      }
      return true;
    }

    method Forget(c: nat)
      requires Valid() && c < |closures|
      modifies this`closures
      ensures Valid() && View() == After(old(View()), Cmd.Forget(c))
    {
      hide ListsOK, RingOK, Refines;
      FewerHeld(mem, cell, closures, c);
      closures := closures[c := []];
    }

    method Execute(c: Cmd) returns (out: seq<Val>)
      requires Valid()
      modifies this
      ensures Valid() && View() == After(old(View()), c) && out == Answer(old(View()), c)
    {
      hide CoreOK;
      ViewSizes(Snap());
      out := [];
      match c {
        case Declare(th, v) => if th < |stacks| { Declare(th, v); }
        case Leave(th, level) => if th < |stacks| && level <= |stacks[th]| { Leave(th, level); }
        case Assign(th, i, v) => if th < |stacks| && i < |stacks[th]| { Assign(th, i, v); }
        case Fetch(th, i) => if th < |stacks| && i < |stacks[th]| { var v := Fetch(th, i); out := [v]; }
        case MakeClosure(th, base, descs, encl) =>
          if th < |stacks| && DescsOK(descs, base, |stacks[th]|, |Outer(closures, encl)|) { MakeClosure(th, base, descs, encl); }
        case SetUpval(k, u, v) => if k < |closures| && u < |closures[k]| { SetUpval(k, u, v); }
        case GetUpval(k, u) => if k < |closures| && u < |closures[k]| { var v := GetUpval(k, u); out := [v]; }
        case Forget(k) => if k < |closures| { Forget(k); }
        case Collect(rs) => Collect(rs);
        case Sweep(th) => if th < |stacks| { Sweep(th); }
        case Reap(r) => if r in mem && r > UVHEAD && mem[r].v.Own? && mem[r].dead { Reap(r); }
      }
    }

    // Whatever a program and the collector do, reading variables and upvalues gives what reading the
    // cells would give.
    method Run(cmds: seq<Cmd>) returns (out: seq<Val>)
      requires Valid()
      modifies this
      ensures Valid() && View() == AfterAll(old(View()), cmds) && out == Answers(old(View()), cmds)
    {
      hide CoreOK, ViewOf, Settled, After, Answer;
      out := [];
      for i := 0 to |cmds|
        invariant Valid() && View() == AfterAll(old(View()), cmds[..i]) && out == Answers(old(View()), cmds[..i])
      {
        OneMore(old(View()), cmds, i);
        var o := Execute(cmds[i]);
        out := out + o;
      }
      assert cmds[..|cmds|] == cmds;
    }
  }
}
