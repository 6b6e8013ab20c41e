// What linking and unlinking an open upvalue does to its thread's list and to the list of all
// open upvalues (lfunc.c).
module UpvalLinks {
  import opened UpvalCells

  // ----- a thread's list -----

  lemma {:induction false} Descending(mem: Mem, list: seq<Ref>, th: nat, size: nat, i: nat, j: nat)
    requires ListOK(mem, list, th, size) && i < j < |list|
    ensures IsOpen(mem, list[i]) && IsOpen(mem, list[j]) && mem[list[j]].v.level < mem[list[i]].v.level
    decreases j
  {
    assert OpenAt(mem, list, th, size, j) && OpenAt(mem, list, th, size, j - 1);
    if i < j - 1 { Descending(mem, list, th, size, i, j - 1); }
  }

  lemma ListFacts(mem: Mem, heads: seq<Ref>, open: seq<seq<Ref>>, stacks: seq<seq<Val>>, th: nat, j: nat)
    requires ListsOK(mem, heads, open, stacks) && th < |open| && j < |open[th]|
    ensures OpenAt(mem, open[th], th, |stacks[th]|, j)
  {}

  // No upvalue is on two lists, or twice on one.
  lemma OneList(mem: Mem, heads: seq<Ref>, open: seq<seq<Ref>>, stacks: seq<seq<Val>>, th: nat, j: nat, th': nat,
                j': nat)
    requires ListsOK(mem, heads, open, stacks) && th < |open| && j < |open[th]| && th' < |open| && j' < |open[th']|
    requires open[th][j] == open[th'][j']
    ensures th == th' && j == j'
  {
    ListFacts(mem, heads, open, stacks, th, j);
    ListFacts(mem, heads, open, stacks, th', j');
    if j < j' { Descending(mem, open[th], th, |stacks[th]|, j, j'); }
    if j' < j { Descending(mem, open[th], th, |stacks[th]|, j', j); }
  }

  // Between j - 1 and j, where the level belongs, no upvalue has this level.
  lemma NoneAtLevel(mem: Mem, heads: seq<Ref>, open: seq<seq<Ref>>, stacks: seq<seq<Val>>, th: nat, j: nat, level: nat,
                    r: Ref)
    requires ListsOK(mem, heads, open, stacks) && th < |open| && j <= |open[th]|
    requires j > 0 ==> IsOpen(mem, open[th][j - 1]) && mem[open[th][j - 1]].v.level > level
    requires j < |open[th]| ==> IsOpen(mem, open[th][j]) && mem[open[th][j]].v.level < level
    requires r in mem && r > UVHEAD
    ensures mem[r].v != Slot(th, level)
  {
    if mem[r].v.Slot? && mem[r].v.th == th {
      assert IsOpen(mem, r);
      var i :| 0 <= i < |open[th]| && open[th][i] == r;
      ListFacts(mem, heads, open, stacks, th, i);
      if i < j - 1 { Descending(mem, open[th], th, |stacks[th]|, i, j - 1); }
      if j < i { Descending(mem, open[th], th, |stacks[th]|, j, i); }
    }
  }

  // The lists see only 'v' and 'next'.
  ghost predicate SameChains(mem: Mem, mem': Mem) {
    mem'.Keys == mem.Keys && forall r :: r in mem ==> mem'[r].v == mem[r].v && mem'[r].next == mem[r].next
  }

  lemma SameLists(mem: Mem, mem': Mem, heads: seq<Ref>, open: seq<seq<Ref>>, stacks: seq<seq<Val>>)
    requires ListsOK(mem, heads, open, stacks) && SameChains(mem, mem')
    ensures ListsOK(mem', heads, open, stacks)
  {
    forall th, j | 0 <= th < |open| && 0 <= j < |open[th]| ensures OpenAt(mem', open[th], th, |stacks[th]|, j) {
      ListFacts(mem, heads, open, stacks, th, j);
    }
    forall r | IsOpen(mem', r) ensures mem'[r].v.th < |open| && r in open[mem'[r].v.th] { assert IsOpen(mem, r); }
  }

  // A new upvalue between j - 1 and j.
  ghost predicate Inserts(mem: Mem, list: seq<Ref>, th: nat, size: nat, j: nat, uv: Ref, u: UpVal, mem': Mem) {
    j <= |list| && uv !in mem && uv > UVHEAD && u.v.Slot? && u.v.th == th && u.v.level < size &&
    u.next == First(list, j) &&
    (j > 0 ==> IsOpen(mem, list[j - 1]) && mem[list[j - 1]].v.level > u.v.level) &&
    (j < |list| ==> IsOpen(mem, list[j]) && mem[list[j]].v.level < u.v.level) &&
    mem' == if j == 0 then mem[uv := u] else mem[uv := u][list[j - 1] := mem[list[j - 1]].(next := uv)]
  }

  function Inserted(list: seq<Ref>, j: nat, uv: Ref): seq<Ref>
    requires j <= |list|
  {
    list[..j] + [uv] + list[j..]
  }

  lemma InsertInList(mem: Mem, heads: seq<Ref>, open: seq<seq<Ref>>, stacks: seq<seq<Val>>, th: nat, j: nat, uv: Ref,
                     u: UpVal, mem': Mem)
    requires ListsOK(mem, heads, open, stacks) && th < |open| &&
             Inserts(mem, open[th], th, |stacks[th]|, j, uv, u, mem')
    ensures ListsOK(mem', if j == 0 then heads[th := uv] else heads, open[th := Inserted(open[th], j, uv)], stacks)
  {
    var open' := open[th := Inserted(open[th], j, uv)];
    forall th', i | 0 <= th' < |open| && 0 <= i < |open'[th']| ensures OpenAt(mem', open'[th'], th', |stacks[th']|, i) {
      if th' == th { InsertedAt(mem, heads, open, stacks, th, j, uv, u, mem', i); }
      else { OtherInserted(mem, heads, open, stacks, th, j, uv, u, mem', th', i); }
    }
    forall r | IsOpen(mem', r) ensures mem'[r].v.th < |open'| && r in open'[mem'[r].v.th] {
      if r == uv { assert Inserted(open[th], j, uv)[j] == uv; }
      else {
        assert IsOpen(mem, r);
        InsertedMember(open[th], j, uv, r);
      }
    }
  }

  lemma InsertedMember(list: seq<Ref>, j: nat, uv: Ref, r: Ref)
    requires j <= |list|
    ensures r in list ==> r in Inserted(list, j, uv)
  {
    if i :| 0 <= i < |list| && list[i] == r { assert Inserted(list, j, uv)[if i < j then i else i + 1] == r; }
  }

  lemma InsertedAt(mem: Mem, heads: seq<Ref>, open: seq<seq<Ref>>, stacks: seq<seq<Val>>, th: nat, j: nat, uv: Ref,
                   u: UpVal, mem': Mem, i: nat)
    requires ListsOK(mem, heads, open, stacks) && th < |open| &&
             Inserts(mem, open[th], th, |stacks[th]|, j, uv, u, mem')
    requires i <= |open[th]|
    ensures OpenAt(mem', Inserted(open[th], j, uv), th, |stacks[th]|, i)
  {
    if i < j {
      ListFacts(mem, heads, open, stacks, th, i);
      if open[th][i] == open[th][j - 1] { OneList(mem, heads, open, stacks, th, i, th, j - 1); }
    } else if i > j {
      ListFacts(mem, heads, open, stacks, th, i - 1);
      if j > 0 { Descending(mem, open[th], th, |stacks[th]|, j - 1, i - 1); }
    }
  }

  lemma OtherInserted(mem: Mem, heads: seq<Ref>, open: seq<seq<Ref>>, stacks: seq<seq<Val>>, th: nat, j: nat, uv: Ref,
                      u: UpVal, mem': Mem,
                      th': nat, i: nat)
    requires ListsOK(mem, heads, open, stacks) && th < |open| &&
             Inserts(mem, open[th], th, |stacks[th]|, j, uv, u, mem')
    requires th' < |open| && th' != th && i < |open[th']|
    ensures OpenAt(mem', open[th'], th', |stacks[th']|, i)
  {
    ListFacts(mem, heads, open, stacks, th', i);
    if j > 0 { ListFacts(mem, heads, open, stacks, th, j - 1); }
  }

  // The j-th upvalue leaves its list; it is closed or gone.
  ghost predicate Removes(mem: Mem, list: seq<Ref>, j: nat, mem': Mem) {
    j < |list| && list[j] in mem && !IsOpen(mem', list[j]) && (forall r :: r in mem' ==> r in mem) &&
    forall r :: r in mem && r != list[j] ==>
      r in mem' && mem'[r].v == mem[r].v &&
      mem'[r].next == if j > 0 && r == list[j - 1] then mem[list[j]].next else mem[r].next
  }

  function Removed(list: seq<Ref>, j: nat): seq<Ref>
    requires j < |list|
  {
    list[..j] + list[j + 1..]
  }

  lemma RemoveFromList(mem: Mem, heads: seq<Ref>, open: seq<seq<Ref>>, stacks: seq<seq<Val>>, th: nat, j: nat,
                       mem': Mem)
    requires ListsOK(mem, heads, open, stacks) && th < |open| && Removes(mem, open[th], j, mem')
    ensures ListsOK(mem', if j == 0 then heads[th := mem[open[th][j]].next] else heads, open[th := Removed(open[th], j)], stacks)
  {
    var open' := open[th := Removed(open[th], j)];
    ListFacts(mem, heads, open, stacks, th, j);
    forall th', i | 0 <= th' < |open| && 0 <= i < |open'[th']| ensures OpenAt(mem', open'[th'], th', |stacks[th']|, i) {
      if th' == th { RemovedAt(mem, heads, open, stacks, th, j, mem', i); }
      else { OtherRemoved(mem, heads, open, stacks, th, j, mem', th', i); }
    }
    forall r | IsOpen(mem', r) ensures mem'[r].v.th < |open'| && r in open'[mem'[r].v.th] {
      assert r != open[th][j] && IsOpen(mem, r);
      RemovedMember(open[th], j, r);
    }
  }

  lemma RemovedMember(list: seq<Ref>, j: nat, r: Ref)
    requires j < |list| && r != list[j]
    ensures r in list ==> r in Removed(list, j)
  {
    if i :| 0 <= i < |list| && list[i] == r { assert Removed(list, j)[if i < j then i else i - 1] == r; }
  }

  lemma RemovedAt(mem: Mem, heads: seq<Ref>, open: seq<seq<Ref>>, stacks: seq<seq<Val>>, th: nat, j: nat, mem': Mem,
                  i: nat)
    requires ListsOK(mem, heads, open, stacks) && th < |open| && Removes(mem, open[th], j, mem') && i < |open[th]| - 1
    ensures OpenAt(mem', Removed(open[th], j), th, |stacks[th]|, i)
  {
    var list, size := open[th], |stacks[th]|;
    var was := if i >= j then i + 1 else i;
    var after := if i + 1 >= j then i + 2 else i + 1;
    ListFacts(mem, heads, open, stacks, th, was);
    ListFacts(mem, heads, open, stacks, th, j);
    Apart(mem, list, th, size, was, j);
    if j > 0 && was != j - 1 { Apart(mem, list, th, size, was, j - 1); }
    if after < |list| {
      ListFacts(mem, heads, open, stacks, th, after);
      Apart(mem, list, th, size, after, j);
      Descending(mem, list, th, size, was, after);
    }
  }

  lemma Apart(mem: Mem, list: seq<Ref>, th: nat, size: nat, i: nat, j: nat)
    requires ListOK(mem, list, th, size) && i < |list| && j < |list| && i != j
    ensures list[i] != list[j]
  {
    Descending(mem, list, th, size, if i < j then i else j, if i < j then j else i);
  }

  lemma OtherRemoved(mem: Mem, heads: seq<Ref>, open: seq<seq<Ref>>, stacks: seq<seq<Val>>, th: nat, j: nat, mem': Mem,
                     th': nat, i: nat)
    requires ListsOK(mem, heads, open, stacks) && th < |open| && Removes(mem, open[th], j, mem') && th' < |open| &&
             th' != th && i < |open[th']|
    ensures OpenAt(mem', open[th'], th', |stacks[th']|, i)
  {
    ListFacts(mem, heads, open, stacks, th, j);
    ListFacts(mem, heads, open, stacks, th', i);
    if j > 0 { ListFacts(mem, heads, open, stacks, th, j - 1); }
    if i + 1 < |open[th']| { ListFacts(mem, heads, open, stacks, th', i + 1); }
  }

  // ----- the list of all open upvalues -----

  lemma InsertInRing(mem: Mem, ring: seq<Ref>, uv: Ref, mem': Mem)
    requires RingOK(mem, ring) && uv !in mem && uv > UVHEAD && UVHEAD in mem
    requires forall r :: IsOpen(mem', r) <==> IsOpen(mem, r) || r == uv
    requires forall r :: r in mem ==> r in mem' && mem'[r].unext == (if r == UVHEAD then uv else mem[r].unext)
    requires forall r :: r in mem ==> mem'[r].uprev == if r == mem[UVHEAD].unext then uv else mem[r].uprev
    requires uv in mem' && mem'[uv].uprev == UVHEAD && mem'[uv].unext == mem[UVHEAD].unext
    ensures RingOK(mem', [UVHEAD, uv] + ring[1..])
  {
    var ring', n := [UVHEAD, uv] + ring[1..], |ring|;
    assert !IsOpen(mem, uv) && uv !in ring;
    assert forall j :: 0 <= j < n ==> ring[j] in ring;
    forall j | 0 <= j <= n ensures RingAt(mem', ring', j) { InsertedRingAt(mem, ring, uv, mem', j); }
    forall r ensures r in ring' <==> r in ring || r == uv {
      if j :| 0 <= j < n && ring[j] == r { assert ring'[if j == 0 then 0 else j + 1] == r; }
    }
  }

  lemma InsertedRingAt(mem: Mem, ring: seq<Ref>, uv: Ref, mem': Mem, j: nat)
    requires RingOK(mem, ring) && uv !in mem && UVHEAD in mem && j <= |ring|
    requires forall r :: r in mem ==> r in mem' && mem'[r].unext == (if r == UVHEAD then uv else mem[r].unext)
    requires forall r :: r in mem ==> mem'[r].uprev == if r == mem[UVHEAD].unext then uv else mem[r].uprev
    requires uv in mem' && mem'[uv].uprev == UVHEAD && mem'[uv].unext == mem[UVHEAD].unext
    ensures RingAt(mem', [UVHEAD, uv] + ring[1..], j)
  {
    var n := |ring|;
    assert RingAt(mem, ring, 0);
    if j != 1 {
      var was := if j == 0 then 0 else j - 1;
      assert RingAt(mem, ring, was);
      assert ring[was] == mem[UVHEAD].unext <==> was == Succ(0, n);
    }
  }

  // unlinkupval
  lemma RemoveFromRing(mem: Mem, ring: seq<Ref>, k: nat, mem': Mem)
    requires RingOK(mem, ring) && 0 < k < |ring| && ring[k] in mem
    requires forall r :: IsOpen(mem', r) <==> IsOpen(mem, r) && r != ring[k]
    requires forall r :: r in mem && r != ring[k] ==> r in mem' && mem'[r].unext == if r == mem[ring[k]].uprev then mem[ring[k]].unext else mem[r].unext
    requires forall r :: r in mem && r != ring[k] ==>
             mem'[r].uprev == if r == mem[ring[k]].unext then mem[ring[k]].uprev else mem[r].uprev
    ensures RingOK(mem', ring[..k] + ring[k + 1..])
  {
    var ring', n := ring[..k] + ring[k + 1..], |ring|;
    assert RingAt(mem, ring, k);
    forall j | 0 <= j < n - 1 ensures RingAt(mem', ring', j) {
      var was := if j < k then j else j + 1;
      assert ring'[j] == ring[was] && RingAt(mem, ring, was);
      assert ring[was] == mem[ring[k]].uprev <==> was == Pred(k, n);
      assert ring[was] == mem[ring[k]].unext <==> was == Succ(k, n);
      RingNeighbours(ring, k, j);
    }
    forall r ensures r in ring' <==> r == UVHEAD || IsOpen(mem', r) {
      assert r in ring' <==> r in ring && r != ring[k] by {
        if r in ring && r != ring[k] {
          var j :| 0 <= j < n && ring[j] == r;
          assert ring'[if j < k then j else j - 1] == r;
        }
        if r in ring' {
          var j :| 0 <= j < n - 1 && ring'[j] == r;
          assert ring[if j < k then j else j + 1] == r;
        }
      }
    }
  }

  lemma RingNeighbours(ring: seq<Ref>, k: nat, j: nat)
    requires 0 < k < |ring| && j < |ring| - 1
    ensures var ring' := ring[..k] + ring[k + 1..]; var n := |ring|; var was := if j < k then j else j + 1;
            ring'[Succ(j, n - 1)] == (if was == Pred(k, n) then ring[Succ(k, n)] else ring[Succ(was, n)]) &&
            ring'[Pred(j, n - 1)] == (if was == Succ(k, n) then ring[Pred(k, n)] else ring[Pred(was, n)])
  {}

  // The ring sees only its own links, and which upvalues are open.
  lemma SameRing(mem: Mem, mem': Mem, ring: seq<Ref>)
    requires RingOK(mem, ring) && (forall r :: IsOpen(mem', r) <==> IsOpen(mem, r)) && UVHEAD in mem && UVHEAD in mem'
    requires forall r :: r in mem && r in mem' ==> mem'[r].unext == mem[r].unext && mem'[r].uprev == mem[r].uprev
    ensures RingOK(mem', ring)
  {
    forall j | 0 <= j < |ring| ensures RingAt(mem', ring, j) {
      assert RingAt(mem, ring, j) && ring[j] in ring;
    }
  }

  // A closed upvalue is freed.
  lemma ClosedGoes(mem: Mem, heads: seq<Ref>, open: seq<seq<Ref>>, stacks: seq<seq<Val>>, ring: seq<Ref>, r: Ref)
    requires ListsOK(mem, heads, open, stacks) && RingOK(mem, ring) && UVHEAD in mem && !IsOpen(mem, r) && r > UVHEAD
    ensures ListsOK(mem - {r}, heads, open, stacks) && RingOK(mem - {r}, ring)
  {
    var mem' := mem - {r};
    assert forall q :: IsOpen(mem', q) <==> IsOpen(mem, q);
    SameRing(mem, mem', ring);
    forall th, j | 0 <= th < |open| && 0 <= j < |open[th]| ensures OpenAt(mem', open[th], th, |stacks[th]|, j) {
      ListFacts(mem, heads, open, stacks, th, j);
    }
  }

  // luaF_findupval's links for a new upvalue.
  lemma NewLinks(mem: Mem, heads: seq<Ref>, open: seq<seq<Ref>>, stacks: seq<seq<Val>>, ring: seq<Ref>, th: nat, j: nat,
                 uv: Ref, u: UpVal,
                 mem1: Mem, mem': Mem)
    requires ListsOK(mem, heads, open, stacks) && RingOK(mem, ring) && UVHEAD in mem && mem[UVHEAD].unext in mem
    requires th < |open| && Inserts(mem, open[th], th, |stacks[th]|, j, uv, u, mem1) && u.uprev == UVHEAD &&
             u.unext == mem[UVHEAD].unext
    requires mem'.Keys == mem.Keys + {uv} && forall r :: r in mem' ==> mem'[r].v == mem1[r].v && mem'[r].next == mem1[r].next
    requires forall r :: r in mem' ==> mem'[r].unext == (if r == UVHEAD then uv else mem1[r].unext)
    requires forall r :: r in mem' ==> mem'[r].uprev == (if r == mem[UVHEAD].unext then uv else mem1[r].uprev)
    ensures ListsOK(mem', if j == 0 then heads[th := uv] else heads, open[th := Inserted(open[th], j, uv)], stacks)
    ensures RingOK(mem', [UVHEAD, uv] + ring[1..])
  {
    InsertInList(mem, heads, open, stacks, th, j, uv, u, mem1);
    SameLists(mem1, mem', if j == 0 then heads[th := uv] else heads, open[th := Inserted(open[th], j, uv)], stacks);
    InsertInRing(mem, ring, uv, mem');
  }

  // The links when the j-th upvalue of a thread is closed or freed.
  lemma OldLinks(mem: Mem, heads: seq<Ref>, open: seq<seq<Ref>>, stacks: seq<seq<Val>>, ring: seq<Ref>, th: nat, j: nat,
                 k: nat, mem': Mem)
    requires ListsOK(mem, heads, open, stacks) && RingOK(mem, ring) && th < |open| && Removes(mem, open[th], j, mem')
    requires 0 < k < |ring| && ring[k] == open[th][j]
    requires forall r :: r in mem && r != ring[k] ==>
             mem'[r].unext == if r == mem[ring[k]].uprev then mem[ring[k]].unext else mem[r].unext
    requires forall r :: r in mem && r != ring[k] ==>
             mem'[r].uprev == if r == mem[ring[k]].unext then mem[ring[k]].uprev else mem[r].uprev
    ensures ListsOK(mem', if j == 0 then heads[th := mem[open[th][j]].next] else heads, open[th := Removed(open[th], j)], stacks)
    ensures RingOK(mem', Removed(ring, k))
  {
    RemoveFromList(mem, heads, open, stacks, th, j, mem');
    RemoveFromRing(mem, ring, k, mem');
  }

  // An open upvalue's place in the ring, and its neighbours.
  lemma InRing(mem: Mem, ring: seq<Ref>, r: Ref) returns (k: nat)
    requires RingOK(mem, ring) && IsOpen(mem, r)
    ensures 0 < k < |ring| && ring[k] == r && mem[r].unext in mem && mem[r].uprev in mem && mem[r].unext != r &&
            mem[r].uprev != r
  {
    k :| 0 <= k < |ring| && ring[k] == r;
    assert RingAt(mem, ring, k) && RingAt(mem, ring, Succ(k, |ring|)) && RingAt(mem, ring, Pred(k, |ring|));
  }

  lemma HeadInRing(mem: Mem, ring: seq<Ref>)
    requires RingOK(mem, ring)
    ensures UVHEAD in mem && mem[UVHEAD].unext in mem
  {
    assert RingAt(mem, ring, 0) && RingAt(mem, ring, Succ(0, |ring|));
  }

  // Stacks whose open slots are still there.
  lemma OtherStacks(mem: Mem, heads: seq<Ref>, open: seq<seq<Ref>>, stacks: seq<seq<Val>>, stacks': seq<seq<Val>>)
    requires ListsOK(mem, heads, open, stacks) && |stacks'| == |stacks|
    requires forall r :: IsOpen(mem, r) && mem[r].v.th < |stacks| && mem[r].v.level < |stacks[mem[r].v.th]| ==> mem[r].v.level < |stacks'[mem[r].v.th]|
    ensures ListsOK(mem, heads, open, stacks')
  {
    forall th, j | 0 <= th < |open| && 0 <= j < |open[th]| ensures OpenAt(mem, open[th], th, |stacks'[th]|, j) {
      ListFacts(mem, heads, open, stacks, th, j);
    }
  }

  lemma SameSizes(mem: Mem, heads: seq<Ref>, open: seq<seq<Ref>>, stacks: seq<seq<Val>>, stacks': seq<seq<Val>>)
    requires ListsOK(mem, heads, open, stacks) && |stacks'| == |stacks| &&
             forall th :: 0 <= th < |stacks| ==> |stacks'[th]| == |stacks[th]|
    ensures ListsOK(mem, heads, open, stacks')
  {
    OtherStacks(mem, heads, open, stacks, stacks');
  }

  lemma LongerStack(mem: Mem, heads: seq<Ref>, open: seq<seq<Ref>>, stacks: seq<seq<Val>>, th: nat, v: Val)
    requires ListsOK(mem, heads, open, stacks) && th < |stacks|
    ensures ListsOK(mem, heads, open, stacks[th := stacks[th] + [v]])
  {
    OtherStacks(mem, heads, open, stacks, stacks[th := stacks[th] + [v]]);
  }

  lemma ShorterStack(mem: Mem, heads: seq<Ref>, open: seq<seq<Ref>>, stacks: seq<seq<Val>>, th: nat, level: nat)
    requires ListsOK(mem, heads, open, stacks) && th < |stacks| && level <= |stacks[th]|
    requires forall r :: IsOpen(mem, r) && mem[r].v.th == th ==> mem[r].v.level < level
    ensures ListsOK(mem, heads, open, stacks[th := stacks[th][..level]])
  {
    OtherStacks(mem, heads, open, stacks, stacks[th := stacks[th][..level]]);
  }
}
