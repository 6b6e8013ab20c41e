// Why each kind of collector step keeps the invariant, frees only dead objects, and keeps the
// marked part of the heap inside any closed set that the cycle started from.
module GcSteps {
  import opened GcHeap
  import opened GcInvariant

  // The closed sets that a step must respect: before a cycle, any that holds the roots.
  ghost predicate Traced(s: State, within: set<Ref>) {
    if s.phase == Pause then Closed(s.heap, within) && Roots(s) <= within else OnlyFrom(s, within)
  }

  // Progress of a cycle: the phases still to come, then the work left in this one.
  function Rank(p: Phase): nat {
    match p
    case Propagate => 5
    case Atomic => 4
    case SweepString => 3
    case SweepUdata => 2
    case Sweep => 1
    case Pause => 0
  }

  ghost function WorkLeft(s: State): int {
    match s.phase
    case Propagate => |Whites(s.heap)| + |s.gray|
    case SweepString => |s.strt| - s.sweepstrgc
    case Sweep => |s.allgc| - s.sweepgc
    case _ => 0
  }

  ghost predicate Progress(s: State, s': State) {
    Rank(s'.phase) < Rank(s.phase) || (s'.phase == s.phase && 0 <= WorkLeft(s') < WorkLeft(s))
  }

  // What a reader may rely on after one collector step from s to s'.
  ghost predicate StepOK(s: State, s': State, within: set<Ref>) {
    Inv(s') && Collects(s, s') && (Traced(s, within) ==> OnlyFrom(s', within)) &&
    (if s.phase == Pause then s'.phase == Propagate else Progress(s, s'))
  }

  // ----- marking steps -----

  lemma EvolvesKeepsStructure(s: State, s': State)
    requires InvBase(s) && Evolves(s.heap, s'.heap)
    requires s'.allgc == s.allgc && s'.strt == s.strt && s'.mainthread == s.mainthread
    ensures ListsOK(s'.heap, s'.allgc, s'.strt, s'.mainthread) && FixedAreStrings(s'.heap)
  {
    forall r | r in s.heap ensures s'.heap[r].body.Str? == s.heap[r].body.Str? && s'.heap[r].body.Thread? == s.heap[r].body.Thread? {
      assert ObjEvolves(s.heap[r], s'.heap[r]);
    }
  }

  lemma EvolvesCollects(s: State, s': State)
    requires Evolves(s.heap, s'.heap)
    requires s'.mainthread == s.mainthread && s'.running == s.running && s'.registry == s.registry && s'.mt == s.mt
    ensures Collects(s, s') && Roots(s') == Roots(s)
  {
    forall r | r in s'.heap ensures r in s.heap && ObjEvolves(s.heap[r], s'.heap[r]) {}
  }

  lemma MarkStepOK(s: State, s': State, within: set<Ref>, start: set<Ref>)
    requires Inv(s) && (s.phase == Pause || s.phase == Propagate) && Evolves(s.heap, s'.heap)
    requires s' == s.(heap := s'.heap, gray := s'.gray, grayagain := s'.grayagain, phase := Propagate)
    requires MarkOK(s'.heap, s'.gray, s'.grayagain, Elems(s'.grayagain), start, false) &&
             !IsWhite(s'.heap, s.mainthread)
    requires s.phase == Propagate ==> |Whites(s'.heap)| + |s'.gray| < |Whites(s.heap)| + |s.gray|
    requires Traced(s, within) ==> start == within
    ensures StepOK(s, s', within)
  {
    EvolvesCollects(s, s');
    RemarkedInv(s, s', start);
  }

  lemma RemarkedInv(s: State, s': State, start: set<Ref>)
    requires InvBase(s) && Evolves(s.heap, s'.heap) &&
             forall r :: r in s.heap ==> s.heap[r].color != White(!s.currentwhite)
    requires s' == s.(heap := s'.heap, gray := s'.gray, grayagain := s'.grayagain, phase := Propagate)
    requires MarkOK(s'.heap, s'.gray, s'.grayagain, Elems(s'.grayagain), start, false) &&
             !IsWhite(s'.heap, s.mainthread)
    ensures Inv(s')
  {
    EvolvesKeepsStructure(s, s');
    NoDeadAppears(s.heap, s'.heap, s.currentwhite);
    NoDeadIsAlive(s'.heap, s.currentwhite);
    RootsStayAlive(s, s');
    WithinAll(s'.heap, s'.gray, s'.grayagain, Elems(s'.grayagain), start);
  }

  lemma WithinAll(h: Heap, gray: seq<Ref>, again: seq<Ref>, extra: set<Ref>, within: set<Ref>)
    requires MarkOK(h, gray, again, extra, within, false)
    ensures MarkOK(h, gray, again, extra, h.Keys, false)
  {
    forall o, r | o in h && o in h.Keys && Edge(h[o].body, r) ensures r in h.Keys {
      EdgeIsNeeded(h[o].body, r);
    }
  }

  lemma NoDeadIsAlive(h: Heap, currentwhite: bool)
    requires NoDangling(h) && forall r :: r in h ==> h[r].color != White(!currentwhite)
    ensures AliveClosed(h, currentwhite) && forall r :: r in h ==> Alive(h, currentwhite, r)
  {}

  lemma RootsStayAlive(s: State, s': State)
    requires RootsAlive(s) && Evolves(s.heap, s'.heap)
    requires s'.mainthread == s.mainthread && s'.running == s.running && s'.registry == s.registry && s'.mt == s.mt
    requires forall r :: r in Roots(s) && r in s'.heap ==> Alive(s'.heap, s'.currentwhite, r)
    ensures RootsAlive(s')
  {
    assert ObjEvolves(s.heap[s.running], s'.heap[s.running]);
    assert s.registry in [s.registry];
    assert s.registry.Coll? ==> s.registry.ref in Roots(s);
    forall v | v in s.mt ensures AliveValue(s'.heap, s'.currentwhite, v) {
      assert AliveValue(s.heap, s.currentwhite, v);
      assert v.Coll? ==> v.ref in Roots(s);
    }
  }

  lemma FlipKeepsAlive(h: Heap, oldwhite: bool)
    requires Tri(h, {}, true) && FixedAreStrings(h) && forall r :: r in h ==> h[r].color != White(!oldwhite)
    ensures AliveClosed(h, !oldwhite) && forall r :: r in h && !h[r].color.White? ==> Alive(h, !oldwhite, r)
  {
    forall o, r | o in h && !IsDead(h[o], !oldwhite) && Mentions(h[o].body, r) ensures Alive(h, !oldwhite, r) {
      assert !h[o].body.Str?;
      assert Needs(h[o].body, r, true);
    }
  }

  // The atomic step flips the white: exactly the unmarked objects become dead.
  lemma AtomicStepOK(s: State, s': State, within: set<Ref>)
    requires Inv(s) && s.phase == Propagate && Evolves(s.heap, s'.heap)
    requires s' == s.(heap := s'.heap, gray := s'.gray, grayagain := s'.grayagain, phase := SweepString,
                      sweepstrgc := 0, currentwhite := !s.currentwhite)
    requires Tri(s'.heap, {}, true) && NoDangling(s'.heap) && StacksOK(s'.heap)
    requires forall r :: r in Roots(s) ==> r in s'.heap && !s'.heap[r].color.White?
    requires OnlyFrom(s, within) ==> forall r :: r in s'.heap && !s'.heap[r].color.White? ==> r in within
    ensures StepOK(s, s', within)
  {
    hide MarkOK, Closed, ListsOK, Collects, StacksOK, Tri, NoDangling, Evolves, OnlyFrom, Alive, IsDead;
    EvolvesKeepsStructure(s, s');
    EvolvesCollects(s, s');
    NoDeadAppears(s.heap, s'.heap, s.currentwhite);
    FlipKeepsAlive(s'.heap, s.currentwhite);
    RootsStayAlive(s, s');
    if OnlyFrom(s, within) { MarkedOnlyFrom(s, s', within); }
  }

  lemma MarkedOnlyFrom(s: State, s': State, within: set<Ref>)
    requires Evolves(s.heap, s'.heap) && OnlyFrom(s, within) && Roots(s') == Roots(s) && s'.phase == SweepString
    requires s'.currentwhite == !s.currentwhite &&
             forall r :: r in s'.heap ==> s'.heap[r].color != White(!s.currentwhite)
    requires forall r :: r in s'.heap && !s'.heap[r].color.White? ==> r in within
    ensures OnlyFrom(s', within)
  {
    EvolvesClosed(s.heap, s'.heap, within);
  }

  lemma NoDeadAppears(h: Heap, h': Heap, currentwhite: bool)
    requires Evolves(h, h') && forall r :: r in h ==> h[r].color != White(!currentwhite)
    ensures forall r :: r in h' ==> h'[r].color != White(!currentwhite)
  {
    forall r | r in h' ensures h'[r].color != White(!currentwhite) {
      assert ObjEvolves(h[r], h'[r]);
    }
  }

  // ----- sweeping steps -----

  lemma SweptBasics(s: State, s': State, stretch: seq<Ref>, within: set<Ref>)
    requires Inv(s) && (forall r :: r in stretch ==> r in s.heap) && (s.phase.SweepString? || s.phase.Sweep?)
    requires s'.heap == SweptHeap(s.heap, stretch, s.currentwhite) && s'.phase == s.phase &&
             s'.currentwhite == s.currentwhite
    requires s'.mainthread == s.mainthread && s'.running == s.running && s'.registry == s.registry && s'.mt == s.mt
    ensures StacksOK(s'.heap) && FixedAreStrings(s'.heap) && AliveClosed(s'.heap, s'.currentwhite) && RootsAlive(s')
    ensures Collects(s, s') && (OnlyFrom(s, within) ==> OnlyFrom(s', within))
  {
    SweptKeepsAlive(s.heap, stretch, s.currentwhite);
    forall v | v in s.mt ensures AliveValue(s'.heap, s'.currentwhite, v) {
      assert AliveValue(s.heap, s.currentwhite, v);
    }
    if OnlyFrom(s, within) { SweptKeepsOnlyFrom(s, stretch, s', within); }
  }

  lemma SweepStringStepOK(s: State, s': State, within: set<Ref>)
    requires Inv(s) && s.phase == SweepString && s.sweepstrgc < |s.strt|
    requires forall r :: r in s.strt[s.sweepstrgc] ==> r in s.heap
    requires var b := s.strt[s.sweepstrgc];
             s' == s.(heap := SweptHeap(s.heap, b, s.currentwhite),
                      strt := s.strt[s.sweepstrgc := Survivors(s.heap, b, s.currentwhite)], sweepstrgc := s.sweepstrgc + 1)
    ensures StepOK(s, s', within)
  {
    hide ListsOK, AliveClosed, OnlyFrom, Collects, RootsAlive, StacksOK, FixedAreStrings;
    var b := s.strt[s.sweepstrgc];
    SweptBasics(s, s', b, within);
    StringListsOK(s.heap, s.allgc, s.strt, s.mainthread, s.sweepstrgc, s.currentwhite);
    forall a, r | 0 <= a < s'.sweepstrgc && r in s'.strt[a] && r in s'.heap
      ensures s'.heap[r].color == White(s.currentwhite) {
      if a < s.sweepstrgc { assert r in s.strt[a]; }
    }
  }

  lemma StringListsOK(h: Heap, allgc: seq<Ref>, strt: seq<seq<Ref>>, mainthread: Ref, k: nat, currentwhite: bool)
    requires ListsOK(h, allgc, strt, mainthread) && k < |strt| && forall r :: r in strt[k] ==> r in h
    ensures ListsOK(SweptHeap(h, strt[k], currentwhite), allgc,
                    strt[k := Survivors(h, strt[k], currentwhite)], mainthread)
  {
    var h' := SweptHeap(h, strt[k], currentwhite);
    var strt' := strt[k := Survivors(h, strt[k], currentwhite)];
    forall r | r in h' ensures r == mainthread || r in allgc || (h'[r].body.Str? && InStrt(strt', r)) {
      if h[r].body.Str? && InStrt(strt, r) {
        var b :| 0 <= b < |strt| && r in strt[b];
        assert r in strt'[b];
      }
    }
    forall r | r in allgc ensures r in h' && !h'[r].body.Str? { assert r !in strt[k]; }
    assert mainthread !in strt[k];
  }

  // s' is s after sweeping the cells of 'allgc' from 'sweepgc' up to 'end'.
  ghost predicate SweptCells(s: State, s': State, end: nat, stretch: seq<Ref>, kept: seq<Ref>)
  {
    s.sweepgc < end <= |s.allgc| && (forall r :: r in s.allgc ==> r in s.heap) &&
    stretch == s.allgc[s.sweepgc..end] && (forall r :: r in stretch ==> r in s.heap) &&
    kept == Survivors(s.heap, stretch, s.currentwhite) &&
    s' == s.(heap := SweptHeap(s.heap, stretch, s.currentwhite),
             allgc := s.allgc[..s.sweepgc] + kept + s.allgc[end..], sweepgc := s.sweepgc + |kept|)
  }

  lemma SweepStepOK(s: State, s': State, within: set<Ref>, end: nat, stretch: seq<Ref>, kept: seq<Ref>)
    requires Inv(s) && s.phase == Sweep && SweptCells(s, s', end, stretch, kept)
    ensures StepOK(s, s', within)
  {
    hide ListsOK, AliveClosed, OnlyFrom, Collects, RootsAlive, StacksOK, FixedAreStrings, PhaseOK, Progress, SweptCells;
    CellsFacts(s, s', end, stretch, kept);
    SweptBasics(s, s', stretch, within);
    SweepPhaseOK(s, s', end, stretch, kept);
  }

  lemma CellsFacts(s: State, s': State, end: nat, stretch: seq<Ref>, kept: seq<Ref>)
    requires SweptCells(s, s', end, stretch, kept) && ListsOK(s.heap, s.allgc, s.strt, s.mainthread)
    ensures (forall r :: r in stretch ==> r in s.heap) && s'.heap == SweptHeap(s.heap, stretch, s.currentwhite)
    ensures s' == s.(heap := s'.heap, allgc := s'.allgc, sweepgc := s'.sweepgc) &&
            ListsOK(s'.heap, s'.allgc, s'.strt, s'.mainthread)
  {
    hide ListsOK, SweptHeap, Survivors, IsDead;
    AllgcOK(s.heap, s.allgc, s.strt, s.mainthread, s.sweepgc, end - s.sweepgc, s.currentwhite);
  }

  lemma SweepPhaseOK(s: State, s': State, end: nat, stretch: seq<Ref>, kept: seq<Ref>)
    requires s.phase == Sweep && PhaseOK(s) && SweptCells(s, s', end, stretch, kept)
    ensures PhaseOK(s') && Progress(s, s') && s'.phase == Sweep
  {
    hide Distinct;
    assert |s'.allgc| - s'.sweepgc == |s.allgc| - end;
    forall i | 0 <= i < s'.sweepgc && s'.allgc[i] in s'.heap ensures s'.heap[s'.allgc[i]].color == White(s.currentwhite) {
      if i < s.sweepgc { assert s'.allgc[i] == s.allgc[i]; } else { assert s'.allgc[i] in kept; }
    }
  }

  lemma AllgcOK(h: Heap, allgc: seq<Ref>, strt: seq<seq<Ref>>, mainthread: Ref, at: nat, k: nat, currentwhite: bool)
    requires ListsOK(h, allgc, strt, mainthread) && at + k <= |allgc| && forall r :: r in allgc ==> r in h
    ensures var stretch := allgc[at..at + k];
            ListsOK(SweptHeap(h, stretch, currentwhite), allgc[..at] + Survivors(h, stretch, currentwhite) + allgc[at + k..],
                    strt, mainthread)
  {
    hide ListsOK, SweptHeap, Survivors, Distinct, IsDead;
    var stretch := allgc[at..at + k];
    var kept := Survivors(h, stretch, currentwhite);
    ListIsDistinct(h, allgc, strt, mainthread, at, k);
    SplicedMembers(allgc, at, k, kept);
    AllgcLists(h, allgc, allgc[..at] + kept + allgc[at + k..], stretch, strt, mainthread, currentwhite);
  }

  lemma ListIsDistinct(h: Heap, allgc: seq<Ref>, strt: seq<seq<Ref>>, mainthread: Ref, at: nat, k: nat)
    requires ListsOK(h, allgc, strt, mainthread) && at + k <= |allgc|
    ensures Distinct(allgc) && Distinct(allgc[at..at + k])
  {}

  // Cutting a list drops exactly those members of the stretch that are not kept.
  lemma SplicedMembers(list: seq<Ref>, at: nat, k: nat, kept: seq<Ref>)
    requires Distinct(list) && Distinct(kept) && at + k <= |list| && forall r :: r in kept ==> r in list[at..at + k]
    ensures var list' := list[..at] + kept + list[at + k..];
            Distinct(list') && forall r :: r in list' <==> r in list && (r in list[at..at + k] ==> r in kept)
  {
    SplitDistinct(list, at, k, kept);
    hide Distinct;
    assert list == list[..at] + list[at..at + k] + list[at + k..];
  }

  lemma AllgcLists(h: Heap, allgc: seq<Ref>, allgc': seq<Ref>, stretch: seq<Ref>, strt: seq<seq<Ref>>, mainthread: Ref,
                   currentwhite: bool)
    requires ListsOK(h, allgc, strt, mainthread) && Distinct(allgc') && forall r :: r in stretch ==> r in allgc && r in h
    requires forall r :: r in allgc' <==> r in allgc && (r in stretch ==> !IsDead(h[r], currentwhite))
    ensures ListsOK(SweptHeap(h, stretch, currentwhite), allgc', strt, mainthread)
  {
    hide Distinct, IsDead;
    var h' := SweptHeap(h, stretch, currentwhite);
    forall r | r in h' ensures r == mainthread || r in allgc' || (h'[r].body.Str? && InStrt(strt, r)) {}
    forall b, r | 0 <= b < |strt| && r in strt[b] ensures r in h' && h'[r].body.Str? { assert r !in stretch; }
  }

  lemma SplitDistinct(list: seq<Ref>, at: nat, k: nat, kept: seq<Ref>)
    requires Distinct(list) && Distinct(kept) && at + k <= |list| && forall r :: r in kept ==> r in list[at..at + k]
    ensures Distinct(list[..at] + kept + list[at + k..])
    ensures forall r :: r in list[at..at + k] ==> r !in list[..at] && r !in list[at + k..]
  {
    var mid := list[at..at + k];
    assert Distinct(mid);
    forall r | r in mid ensures r !in list[..at] && r !in list[at + k..] {
      var i :| 0 <= i < k && mid[i] == r;
      assert list[at + i] == r;
    }
    var all := list[..at] + kept + list[at + k..];
    forall i, j | 0 <= i < j < |all| ensures all[i] != all[j] {
      if at <= i < at + |kept| && j < at + |kept| {
        assert all[i] == kept[i - at] && all[j] == kept[j - at];
      } else if at <= i < at + |kept| {
        assert all[i] == kept[i - at] && kept[i - at] in kept && all[j] == list[at + k..][j - at - |kept|];
      } else if at <= j < at + |kept| {
        assert all[j] == kept[j - at] && kept[j - at] in kept && all[i] == list[..at][i];
      }
    }
  }

  // The cycle ends by turning the main thread white.
  lemma SweepEndOK(s: State, s': State, within: set<Ref>)
    requires Inv(s) && s.phase == Sweep && s.sweepgc == |s.allgc|
    requires s' == s.(heap := SweptHeap(s.heap, [s.mainthread], s.currentwhite), phase := Pause)
    ensures StepOK(s, s', within)
  {
    hide ListsOK, AliveClosed, OnlyFrom, Collects, RootsAlive, StacksOK, FixedAreStrings, SweptHeap, PhaseOK;
    var s1 := s.(heap := s'.heap);
    MainIsThere(s);
    SweptBasics(s, s1, [s.mainthread], within);
    OnlyMain(s, s');
    SameBodies(s.heap, s'.heap, s.allgc, s.strt, s.mainthread);
    AllWhite(s, s');
    NowPaused(s, s1, within);
  }

  lemma MainIsThere(s: State)
    requires Inv(s)
    ensures s.mainthread in s.heap && ListsOK(s.heap, s.allgc, s.strt, s.mainthread)
  {}

  // Only the main thread changes, and only its colour.
  lemma OnlyMain(s: State, s': State)
    requires Inv(s) && s.mainthread in s.heap && s'.heap == SweptHeap(s.heap, [s.mainthread], s.currentwhite)
    ensures s'.heap.Keys == s.heap.Keys && s'.heap[s.mainthread].color == White(s.currentwhite)
    ensures forall r :: r in s.heap ==> s'.heap[r].body == s.heap[r].body && (r != s.mainthread ==> s'.heap[r] == s.heap[r])
  {
    assert Alive(s.heap, s.currentwhite, s.mainthread);
    hide Inv;
    assert s.mainthread in [s.mainthread];
  }

  lemma SameBodies(h: Heap, h': Heap, allgc: seq<Ref>, strt: seq<seq<Ref>>, mainthread: Ref)
    requires ListsOK(h, allgc, strt, mainthread) && h'.Keys == h.Keys && forall r :: r in h ==> h'[r].body == h[r].body
    ensures ListsOK(h', allgc, strt, mainthread)
  {
    hide Distinct;
  }

  lemma AllWhite(s: State, s': State)
    requires ListsOK(s.heap, s.allgc, s.strt, s.mainthread) && PhaseOK(s) && s.phase == Sweep && s.sweepgc == |s.allgc|
    requires s'.phase == Pause && s'.currentwhite == s.currentwhite && s.mainthread in s.heap
    requires s'.heap.Keys == s.heap.Keys && s'.heap[s.mainthread].color == White(s.currentwhite)
    requires forall r :: r in s.heap ==> s'.heap[r].body == s.heap[r].body && (r != s.mainthread ==> s'.heap[r] == s.heap[r])
    ensures PhaseOK(s')
  {
    hide Distinct;
    forall r | r in s'.heap ensures s'.heap[r].color == White(s.currentwhite) {
      if r in s.allgc {
        var i :| 0 <= i < |s.allgc| && s.allgc[i] == r;
      }
    }
  }

  lemma NowPaused(s: State, s1: State, within: set<Ref>)
    requires RootsAlive(s1) && Collects(s, s1) && (OnlyFrom(s, within) ==> OnlyFrom(s1, within)) && s1.phase == Sweep
    requires PhaseOK(s1.(phase := Pause))
    ensures var s' := s1.(phase := Pause); RootsAlive(s') && Collects(s, s') && (OnlyFrom(s, within) ==> OnlyFrom(s', within))
  {}

  lemma PhaseChangeOK(s: State, s': State, within: set<Ref>)
    requires Inv(s)
    requires (s.phase == SweepString && s.sweepstrgc == |s.strt| && s' == s.(phase := SweepUdata)) ||
             (s.phase == SweepUdata && s' == s.(phase := Sweep, sweepgc := 0))
    ensures StepOK(s, s', within)
  {
    forall r | r in s.heap && s.heap[r].body.Str? ensures s.heap[r].color == White(s.currentwhite) {
      if s.phase == SweepString {
        assert r !in s.allgc && r != s.mainthread;
        var b :| 0 <= b < |s.strt| && r in s.strt[b];
      }
    }
  }
}
