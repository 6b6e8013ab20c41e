// The invariant of the whole collector state between steps, and what it implies.
module GcInvariant {
  import opened GcHeap

  // ----- the object lists -----

  predicate InStrt(strt: seq<seq<Ref>>, r: Ref) {
    exists b :: 0 <= b < |strt| && r in strt[b]
  }

  // Every object is the main thread, on 'allgc', or a string on exactly one list of the string table.
  ghost predicate ListsOK(h: Heap, allgc: seq<Ref>, strt: seq<seq<Ref>>, mainthread: Ref) {
    mainthread in h && h[mainthread].body.Thread? && mainthread !in allgc &&
    Distinct(allgc) && (forall r :: r in allgc ==> r in h && !h[r].body.Str?) &&
    (forall b :: 0 <= b < |strt| ==> Distinct(strt[b])) &&
    (forall b, r :: 0 <= b < |strt| && r in strt[b] ==> r in h && h[r].body.Str?) &&
    (forall a, b, r :: 0 <= a < b < |strt| && r in strt[a] ==> r !in strt[b]) &&
    forall r :: r in h ==> r == mainthread || r in allgc || (h[r].body.Str? && InStrt(strt, r))
  }

  // ----- liveness -----

  // Objects that are not dead refer only to objects that exist and are not dead.
  ghost predicate AliveClosed(h: Heap, currentwhite: bool) {
    forall o, r :: o in h && !IsDead(h[o], currentwhite) && Mentions(h[o].body, r) ==> Alive(h, currentwhite, r)
  }

  ghost predicate RootsAlive(s: State) {
    Alive(s.heap, s.currentwhite, s.mainthread) &&
    Alive(s.heap, s.currentwhite, s.running) && s.heap[s.running].body.Thread? &&
    AliveValue(s.heap, s.currentwhite, s.registry) &&
    forall v :: v in s.mt ==> AliveValue(s.heap, s.currentwhite, v)
  }

  ghost predicate FixedAreStrings(h: Heap) {
    forall r :: r in h && h[r].fixed ==> h[r].body.Str?
  }

  // ----- what each phase adds -----

  ghost predicate AllStringsWhite(s: State) {
    forall r :: r in s.heap && s.heap[r].body.Str? ==> s.heap[r].color == White(s.currentwhite)
  }

  ghost predicate PhaseOK(s: State) {
    match s.phase
    case Pause =>
      forall r :: r in s.heap ==> s.heap[r].color == White(s.currentwhite)
    case Propagate =>
      (forall r :: r in s.heap ==> s.heap[r].color != White(!s.currentwhite)) &&
      !IsWhite(s.heap, s.mainthread) &&
      MarkOK(s.heap, s.gray, s.grayagain, Elems(s.grayagain), s.heap.Keys, false)
    case Atomic => false
    case SweepString =>
      s.sweepstrgc <= |s.strt| &&
      forall b, r :: 0 <= b < s.sweepstrgc && r in s.strt[b] && r in s.heap ==> s.heap[r].color == White(s.currentwhite)
    case SweepUdata => AllStringsWhite(s)
    case Sweep =>
      AllStringsWhite(s) && s.sweepgc <= |s.allgc| &&
      forall i :: 0 <= i < s.sweepgc && s.allgc[i] in s.heap ==> s.heap[s.allgc[i]].color == White(s.currentwhite)
  }

  // The part that does not depend on the phase.
  ghost predicate InvBase(s: State) {
    ListsOK(s.heap, s.allgc, s.strt, s.mainthread) && FixedAreStrings(s.heap) &&
    StacksOK(s.heap) && AliveClosed(s.heap, s.currentwhite) && RootsAlive(s)
  }

  ghost predicate Inv(s: State) { InvBase(s) && PhaseOK(s) }

  // The invariant's meaning for the mutator: whatever it can reach exists and is not dead.
  lemma ReachableIsAlive(s: State, r: Ref)
    requires Inv(s) && Live(s, r)
    ensures Alive(s.heap, s.currentwhite, r)
  {
    var alive := set q | q in s.heap && !IsDead(s.heap[q], s.currentwhite);
    forall o, q | o in s.heap && o in alive && Edge(s.heap[o].body, q) ensures q in alive {
      EdgeIsNeeded(s.heap[o].body, q);
      assert Alive(s.heap, s.currentwhite, q);
    }
    var n: nat :| ReachIn(s.heap, Roots(s), n, r);
    ReachStaysInside(s.heap, Roots(s), alive, n, r);
  }

  // ----- one step of the collector, seen from outside -----

  // A step leaves the roots alone, never changes an edge, and frees dead objects only.
  ghost predicate Collects(s: State, s': State) {
    s'.mainthread == s.mainthread && s'.running == s.running && s'.registry == s.registry && s'.mt == s.mt &&
    (forall r :: r in s'.heap ==> r in s.heap && s'.heap[r].fixed == s.heap[r].fixed &&
                                  BodyEvolves(s.heap[r].body, s'.heap[r].body)) &&
    forall r :: r in s.heap && r !in s'.heap ==> IsDead(s.heap[r], s.currentwhite)
  }

  // Hence it frees nothing reachable, and what is reachable stays the same.
  lemma CollectsKeepsReachable(s: State, s': State)
    requires Inv(s) && Collects(s, s')
    ensures forall r :: Live(s, r) ==> r in s'.heap
    ensures forall r :: Live(s', r) <==> Live(s, r)
    ensures ReachSet(s'.heap, Roots(s')) == ReachSet(s.heap, Roots(s))
  {
    forall r | Live(s, r) ensures r in s'.heap { ReachableIsAlive(s, r); }
    assert Roots(s') == Roots(s);
    forall o, q | o in s.heap && o in s'.heap ensures Edge(s.heap[o].body, q) == Edge(s'.heap[o].body, q) {
      EvolvedEdges(s.heap[o].body, s'.heap[o].body, q);
    }
    forall o, k: nat | ReachIn(s.heap, Roots(s), k, o) ensures o in s'.heap { assert Live(s, o); }
    forall r ensures Live(s', r) <==> Live(s, r) {
      if Live(s, r) {
        var n: nat :| ReachIn(s.heap, Roots(s), n, r);
        ReachCarries(s.heap, s'.heap, Roots(s), n, r);
      }
      if Live(s', r) {
        var n: nat :| ReachIn(s'.heap, Roots(s'), n, r);
        ReachCarries(s'.heap, s.heap, Roots(s'), n, r);
      }
    }
    forall r ensures r in ReachSet(s'.heap, Roots(s')) <==> r in ReachSet(s.heap, Roots(s)) {
      assert Live(s', r) <==> Live(s, r);
    }
  }

  // ----- exactness: what survives a cycle that started from a closed set -----

  ghost predicate OnlyFrom(s: State, within: set<Ref>) {
    Closed(s.heap, within) && Roots(s) <= within &&
    forall r :: r in s.heap ==>
      match s.phase
      case Propagate => s.heap[r].color.White? || r in within
      case Atomic => true
      case Pause => s.heap[r].fixed || r in within
      case _ => IsDead(s.heap[r], s.currentwhite) || s.heap[r].fixed || r in within
  }

  // ----- runs of steps -----

  // From s to s' nothing reachable was lost and no surviving object's edges changed.
  ghost predicate Spares(s: State, s': State) {
    s'.mainthread == s.mainthread && s'.running == s.running && s'.registry == s.registry && s'.mt == s.mt &&
    (forall r :: r in s'.heap ==> r in s.heap && s'.heap[r].fixed == s.heap[r].fixed &&
                                  BodyEvolves(s.heap[r].body, s'.heap[r].body)) &&
    (forall r :: r in s.heap && r !in s'.heap ==> !Live(s, r) && !s.heap[r].fixed) &&
    forall r :: Live(s', r) <==> Live(s, r)
  }

  lemma CollectsSpares(s: State, s': State)
    requires Inv(s) && Collects(s, s')
    ensures Spares(s, s')
  {
    CollectsKeepsReachable(s, s');
  }

  lemma SparesTrans(a: State, b: State, c: State)
    requires Spares(a, b) && Spares(b, c)
    ensures Spares(a, c)
  {
    forall r | r in c.heap ensures BodyEvolves(a.heap[r].body, c.heap[r].body) {
      BodyEvolvesTrans(a.heap[r].body, b.heap[r].body, c.heap[r].body);
    }
  }

  // ----- sweeping a stretch of a list -----

  // Where a sweep of at most 'count' cells from 'start' on stops.
  function SweepEnd(size: nat, start: nat, count: nat): (end: nat)
    requires start <= size
    ensures start <= end <= size && (start < size && count > 0 ==> start < end)
  {
    if count <= size - start then start + count else size
  }

  function SweptHeap(h: Heap, stretch: seq<Ref>, currentwhite: bool): (h': Heap)
    requires forall r :: r in stretch ==> r in h
    ensures forall r :: r in h' <==> r in h && !(r in stretch && IsDead(h[r], currentwhite))
    ensures forall r :: r in h' ==> h'[r] == if r in stretch then h[r].(color := White(currentwhite)) else h[r]
  {
    map r | r in h && !(r in stretch && IsDead(h[r], currentwhite)) ::
      if r in stretch then h[r].(color := White(currentwhite)) else h[r]
  }

  // The survivors, in list order.
  function Survivors(h: Heap, stretch: seq<Ref>, currentwhite: bool): (kept: seq<Ref>)
    requires forall r :: r in stretch ==> r in h
    ensures forall r :: r in kept <==> r in stretch && !IsDead(h[r], currentwhite)
    ensures Distinct(stretch) ==> Distinct(kept)
  {
    if stretch == [] then []
    else
      var front := stretch[..|stretch| - 1];
      var last := stretch[|stretch| - 1];
      var kept := Survivors(h, front, currentwhite);
      assert stretch == front + [last];
      if IsDead(h[last], currentwhite) then kept else kept + [last]
  }

  // Sweeping does not change who is alive, so every liveness fact carries over.
  lemma SweptKeepsAlive(h: Heap, stretch: seq<Ref>, currentwhite: bool)
    requires (forall r :: r in stretch ==> r in h) && AliveClosed(h, currentwhite)
    ensures forall r :: Alive(SweptHeap(h, stretch, currentwhite), currentwhite, r) <==> Alive(h, currentwhite, r)
    ensures AliveClosed(SweptHeap(h, stretch, currentwhite), currentwhite)
  {
    var h' := SweptHeap(h, stretch, currentwhite);
    forall o, r | o in h' && !IsDead(h'[o], currentwhite) && Mentions(h'[o].body, r)
      ensures Alive(h', currentwhite, r) {
      assert Mentions(h[o].body, r);
      assert Alive(h, currentwhite, r);
    }
  }

  lemma SweptKeepsOnlyFrom(s: State, stretch: seq<Ref>, s': State, within: set<Ref>)
    requires (forall r :: r in stretch ==> r in s.heap) && OnlyFrom(s, within)
    requires s.phase.SweepString? || s.phase.Sweep?
    requires s'.heap == SweptHeap(s.heap, stretch, s.currentwhite) && s'.phase == s.phase &&
             s'.currentwhite == s.currentwhite && Roots(s') == Roots(s)
    ensures OnlyFrom(s', within)
  {
    forall o, r | o in s'.heap && o in within && Edge(s'.heap[o].body, r) ensures r in within {
      assert Edge(s.heap[o].body, r);
    }
  }
}
