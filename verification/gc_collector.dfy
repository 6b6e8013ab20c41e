// The incremental collector (lgc.c) in normal mode with strong tables, and the operations by
// which a running program changes the heap it collects.
module GcCollector {
  import opened GcHeap
  import opened GcInvariant
  import opened GcSteps
  import opened GcMutator
  import opened GcStrings

  const GCSWEEPMAX: nat := 40

  class GlobalState {
    const hash: Ref -> nat  // the hash value of a string
    var heap: Heap
    var gray: seq<Ref>
    var grayagain: seq<Ref>
    var allgc: seq<Ref>
    var strt: seq<seq<Ref>>
    var gcstate: Phase
    var currentwhite: bool
    var sweepstrgc: nat
    var sweepgc: nat        // position in 'allgc' of the cell that 'sweepgc' points to
    var mainthread: Ref
    var running: Ref
    var registry: Value
    var mt: seq<Value>

    function Snap(): State
      reads this
    {
      State(heap, gray, grayagain, allgc, strt, gcstate, currentwhite, sweepstrgc, sweepgc,
            mainthread, running, registry, mt)
    }

    ghost predicate Valid()
      reads this
    {
      Inv(Snap())
    }

    // What holds between any two marking operations.
    ghost predicate Marking(extra: set<Ref>, within: set<Ref>)
      reads this
    {
      MarkOK(heap, gray, grayagain, extra, within, gcstate == Atomic)
    }

    // ----- marking -----

    // reallymarkobject
    method ReallyMarkObject(o: Ref, ghost extra: set<Ref>, ghost within: set<Ref>)
      requires Marking(extra, within) && IsWhite(heap, o) && o in within
      modifies this`heap, this`gray
      ensures Marking(extra, within) && MarkEffect(old(heap), old(gray), heap, gray) && !heap[o].color.White?
      decreases |Whites(heap)|, 0
    {
      hide MarkOK, Whites;
      GrayKeepsMarkOK(heap, gray, grayagain, extra, within, gcstate == Atomic, o);
      MarkingShrinksWhites(heap, o, Gray);
      MarkingShrinksWhites(heap, o, Black);
      assert heap[o := heap[o].(color := Gray)][o := heap[o].(color := Black)] == Recolor(heap, o, Black);
      heap := heap[o := heap[o].(color := Gray)];
      match heap[o].body
      case Str =>
      case Udata(mt, env) => MarkAndBlacken(o, [mt, env], extra, within);
      case Upval(v) => MarkAndBlacken(o, [v], extra, within);
      case _ =>
        PushKeepsMarkOK(heap, gray, grayagain, extra, within, gcstate == Atomic, o);
        gray := [o] + gray;
    }

    // The userdata and upvalue cases: mark every field, then turn black.
    method MarkAndBlacken(o: Ref, fields: seq<Value>, ghost extra: set<Ref>, ghost within: set<Ref>)
      requires Marking(extra + {o}, within) && o in heap && heap[o].color == Gray && o in within
      requires o !in gray && o !in grayagain && (heap[o].body.Udata? || heap[o].body.Upval?)
      requires forall r :: Edge(heap[o].body, r) <==> Coll(r) in fields
      modifies this`heap, this`gray
      ensures Marking(extra, within) && o in heap && heap[o].color == Black
      ensures MarkEffect(old(heap)[o := old(heap)[o].(color := Black)], old(gray), heap, gray)
      decreases |Whites(heap)|, 3
    {
      hide MarkOK, Elems, Evolves;
      FieldsAreIn(heap, grayagain, gray, extra + {o}, within, gcstate == Atomic, o);
      MarkAll(fields, extra + {o}, within);
      BlackKeepsMarkOK(heap, gray, grayagain, extra + {o}, within, gcstate == Atomic, o);
      heap := heap[o := heap[o].(color := Black)];
      VisitDone(heap, gray, grayagain, extra, within, gcstate == Atomic, o);
      assert Whites(old(heap)[o := old(heap)[o].(color := Black)]) == Whites(old(heap));
    }

    method MarkAll(vs: seq<Value>, ghost extra: set<Ref>, ghost within: set<Ref>)
      requires Marking(extra, within) && forall r :: Coll(r) in vs ==> r in heap && r in within
      modifies this`heap, this`gray
      ensures Marking(extra, within) && MarkEffect(old(heap), old(gray), heap, gray)
      ensures forall r :: Coll(r) in vs ==> r in heap && !heap[r].color.White?
      decreases |Whites(heap)|, 2
    {
      hide MarkOK;
      for i := 0 to |vs|
        invariant Marking(extra, within) && MarkEffect(old(heap), old(gray), heap, gray)
        invariant forall r :: Coll(r) in vs[..i] ==> r in heap && !heap[r].color.White?
      {
        MarkValue(vs[i], extra, within);
      }
      assert vs[..|vs|] == vs;
    }

    // markvalue and markobject: a NULL pointer is a value that is not collectable.
    method MarkValue(v: Value, ghost extra: set<Ref>, ghost within: set<Ref>)
      requires Marking(extra, within) && (v.Coll? ==> v.ref in heap && v.ref in within)
      modifies this`heap, this`gray
      ensures Marking(extra, within) && MarkEffect(old(heap), old(gray), heap, gray)
      ensures v.Coll? ==> v.ref in heap && !heap[v.ref].color.White?
      decreases |Whites(heap)|, 1
    {
      if v.Coll? && heap[v.ref].color.White? {
        ReallyMarkObject(v.ref, extra, within);
      }
    }

    // ----- traversal -----

    // traversetable without a weak mode, hence traversestrongtable
    method TraverseTable(o: Ref, ghost extra: set<Ref>, ghost within: set<Ref>)
      requires Marking(extra, within) && o in extra && o in heap && heap[o].body.Table? && o in within &&
               !heap[o].color.White?
      modifies this`heap, this`gray
      ensures Marking(extra, within) && VisitEffect(old(heap), old(gray), heap, gray, o)
      ensures forall r :: Mentions(heap[o].body, r) ==> r in heap && !heap[r].color.White?
    {
      hide MarkOK;
      var Table(metatable, arr, nodes) := heap[o].body;
      FieldsAreIn(heap, grayagain, gray, extra, within, gcstate == Atomic, o);
      MarkValue(metatable, extra, within);
      MarkAll(arr, extra, within);
      ghost var h0, g0 := heap, gray;
      TraverseHashPart(o, extra, within);
      VisitEffectTrans(old(heap), old(gray), h0, g0, heap, gray, o);
      forall r | Mentions(heap[o].body, r) ensures r in heap && !heap[r].color.White? {
        assert metatable == Coll(r) || Coll(r) in arr || exists i :: 0 <= i < |heap[o].body.nodes| && (heap[o].body.nodes[i].key == Coll(r) || heap[o].body.nodes[i].val == Coll(r));
      }
    }

    method TraverseHashPart(o: Ref, ghost extra: set<Ref>, ghost within: set<Ref>)
      requires Marking(extra, within) && o in extra && o in heap && heap[o].body.Table? && o in within &&
               !heap[o].color.White?
      modifies this`heap, this`gray
      ensures Marking(extra, within) && VisitEffect(old(heap), old(gray), heap, gray, o)
      ensures heap[o].body.Table? && heap[o].body == old(heap)[o].body.(nodes := heap[o].body.nodes)
      ensures forall i :: 0 <= i < |heap[o].body.nodes| ==> EntryMarked(heap, heap[o].body.nodes[i])
    {
      hide MarkOK, BodyEvolves;
      assert BodyEvolves(heap[o].body, heap[o].body) by { SameBodyEvolves(heap[o].body); }
      var size := |heap[o].body.nodes|;
      for i := 0 to size
        invariant Marking(extra, within) && VisitEffect(old(heap), old(gray), heap, gray, o)
        invariant heap[o].body.Table? && |heap[o].body.nodes| == size && !heap[o].color.White?
        invariant heap[o].body == old(heap)[o].body.(nodes := heap[o].body.nodes)
        invariant forall j :: 0 <= j < i ==> EntryMarked(heap, heap[o].body.nodes[j])
      {
        ghost var h0, g0 := heap, gray;
        TraverseNode(o, i, extra, within);
        VisitEffectTrans(old(heap), old(gray), h0, g0, heap, gray, o);
        forall j | 0 <= j < i ensures EntryMarked(heap, heap[o].body.nodes[j]) {
          assert EntryMarked(h0, h0[o].body.nodes[j]);
        }
      }
    }

    method TraverseNode(o: Ref, i: nat, ghost extra: set<Ref>, ghost within: set<Ref>)
      requires Marking(extra, within) && o in extra && o in heap && heap[o].body.Table? && o in within &&
               !heap[o].color.White?
      requires i < |heap[o].body.nodes|
      modifies this`heap, this`gray
      ensures Marking(extra, within) && VisitEffect(old(heap), old(gray), heap, gray, o)
      ensures heap[o].body.Table? && |heap[o].body.nodes| == |old(heap)[o].body.nodes| && !heap[o].color.White?
      ensures heap[o].body == old(heap)[o].body.(nodes := old(heap)[o].body.nodes[i := heap[o].body.nodes[i]])
      ensures EntryMarked(heap, heap[o].body.nodes[i])
    {
      hide MarkOK;
      FieldsAreIn(heap, grayagain, gray, extra, within, gcstate == Atomic, o);
      var n := heap[o].body.nodes[i];
      if n.val == Nil {
        RemoveEntry(o, i, extra, within);
      } else {
        assert forall r :: n.key == Coll(r) || n.val == Coll(r) ==> Edge(heap[o].body, r);
        MarkValue(n.key, extra, within);
        MarkValue(n.val, extra, within);
      }
    }

    // removeentry
    method RemoveEntry(o: Ref, i: nat, ghost extra: set<Ref>, ghost within: set<Ref>)
      requires Marking(extra, within) && o in extra && o in heap && heap[o].body.Table?
      requires i < |heap[o].body.nodes| && heap[o].body.nodes[i].val == Nil
      requires forall r :: heap[o].body.nodes[i].key == Coll(r) ==> r in heap
      modifies this`heap
      ensures Marking(extra, within) && VisitEffect(old(heap), gray, heap, gray, o)
      ensures heap.Keys == old(heap).Keys && (forall r :: r in heap && r != o ==> heap[r] == old(heap)[r])
      ensures heap[o].color == old(heap)[o].color && heap[o].body.Table?
      ensures EntryMarked(heap, heap[o].body.nodes[i])
      ensures heap[o].body == old(heap)[o].body.(nodes := old(heap)[o].body.nodes[i := heap[o].body.nodes[i]])
    {
      hide MarkOK;
      var n := heap[o].body.nodes[i];
      if n.key.Coll? && heap[n.key.ref].color.White? {
        var b := heap[o].body.(nodes := heap[o].body.nodes[i := Entry(DeadKey(n.key.ref), Nil)]);
        EmptyingKeepsMarkOK(heap, gray, grayagain, extra, within, gcstate == Atomic, o, b);
        heap := heap[o := heap[o].(body := b)];
      }
    }

    // traversestack
    method TraverseStack(o: Ref, ghost extra: set<Ref>, ghost within: set<Ref>)
      requires Marking(extra, within) && o in extra && o in heap && heap[o].body.Thread? && o in within &&
               !heap[o].color.White?
      modifies this`heap, this`gray
      ensures Marking(extra, within) && VisitEffect(old(heap), old(gray), heap, gray, o)
      ensures forall r :: Needs(heap[o].body, r, gcstate == Atomic) ==> r in heap && !heap[r].color.White?
    {
      hide MarkOK;
      FieldsAreIn(heap, grayagain, gray, extra, within, gcstate == Atomic, o);
      var Thread(stack, top) := heap[o].body;
      MarkAll(stack[..top], extra, within);
      if gcstate == Atomic {
        var cleared := stack;
        for i := top to |stack|
          invariant |cleared| == |stack|
          invariant forall j :: 0 <= j < |stack| ==> cleared[j] == if top <= j < i then Nil else stack[j]
        {
          cleared := cleared[i := Nil];
        }
        EmptyingKeepsMarkOK(heap, gray, grayagain, extra, within, true, o, Thread(cleared, top));
        heap := heap[o := heap[o].(body := Thread(cleared, top))];
      }
    }

    // traverseclosure and traverseproto: mark every slot
    method TraverseSlots(o: Ref, slots: seq<Value>, ghost extra: set<Ref>, ghost within: set<Ref>)
      requires Marking(extra, within) && o in extra && o in heap && o in within
      requires heap[o].body.Closure? || heap[o].body.Proto?
      requires forall r :: Edge(heap[o].body, r) <==> Coll(r) in slots
      requires !heap[o].color.White?
      modifies this`heap, this`gray
      ensures Marking(extra, within) && VisitEffect(old(heap), old(gray), heap, gray, o)
      ensures forall r :: Mentions(heap[o].body, r) ==> r in heap && !heap[r].color.White?
    {
      hide MarkOK;
      FieldsAreIn(heap, grayagain, gray, extra, within, gcstate == Atomic, o);
      MarkAll(slots, extra, within);
    }

    // propagatemark
    method PropagateMark(ghost extra: set<Ref>, ghost within: set<Ref>)
      requires Marking(extra, within) && gray != []
      modifies this`heap, this`gray, this`grayagain
      ensures Marking(extra, within) && Evolves(old(heap), heap)
      ensures |Whites(heap)| + |gray| < old(|Whites(heap)| + |gray|)
      ensures grayagain == old(grayagain) || (grayagain == [old(gray[0])] + old(grayagain) && old(gray[0]) !in extra)
      ensures forall r :: r in extra ==> r in heap && r in old(heap) && heap[r] == old(heap)[r]
    {
      hide MarkOK, BodyEvolves, Needs, Elems;
      var o := gray[0];
      GrayHead(heap, gray, grayagain, extra, within, gcstate == Atomic);
      PopKeepsMarkOK(heap, gray, grayagain, extra, within, gcstate == Atomic);
      gray := gray[1..];
      if heap[o].body.Thread? {
        AgainKeepsMarkOK(heap, gray, grayagain, extra + {o}, within, gcstate == Atomic, o);
        grayagain := [o] + grayagain;     // threads turn gray again at once
        assert heap[o := heap[o].(color := Gray)] == heap;
      } else {
        Blacken(o, extra + {o}, within);
      }
      ghost var g0, c := gray, heap[o].color;
      Traverse(o, extra + {o}, within);
      VisitEvolves(old(heap), g0, o, c, heap, gray);
      VisitDone(heap, gray, grayagain, extra, within, gcstate == Atomic, o);
    }

    // the switch of propagatemark
    method Traverse(o: Ref, ghost extra: set<Ref>, ghost within: set<Ref>)
      requires Marking(extra, within) && o in extra && o in heap && o in within
      requires Listable(heap[o].body) && !heap[o].color.White?
      modifies this`heap, this`gray
      ensures Marking(extra, within) && VisitEffect(old(heap), old(gray), heap, gray, o)
      ensures forall r :: Needs(heap[o].body, r, gcstate == Atomic) ==> r in heap && !heap[r].color.White?
    {
      hide MarkOK, BodyEvolves;
      match heap[o].body
      case Table(_, _, _) => TraverseTable(o, extra, within);
      case Closure(p, us) => TraverseSlots(o, [p] + us, extra, within);
      case Thread(_, _) => TraverseStack(o, extra, within);
      case Proto(ks) => TraverseSlots(o, ks, extra, within);
    }

    // gray2black on an object whose visit is owed
    method Blacken(o: Ref, ghost extra: set<Ref>, ghost within: set<Ref>)
      requires Marking(extra, within) && o in extra && o in heap && heap[o].color == Gray
      requires !heap[o].body.Thread? && o !in grayagain
      modifies this`heap
      ensures Marking(extra, within) && heap == old(heap)[o := old(heap)[o].(color := Black)]
    {
      BlackKeepsMarkOK(heap, gray, grayagain, extra, within, gcstate == Atomic, o);
      heap := heap[o := heap[o].(color := Black)];
    }

    // propagateall
    method PropagateAll(ghost extra: set<Ref>, ghost within: set<Ref>)
      requires Marking(extra, within) && Elems(grayagain) !! extra
      modifies this`heap, this`gray, this`grayagain
      ensures Marking(extra, within) && Evolves(old(heap), heap) && gray == [] && Elems(grayagain) !! extra
      ensures forall r :: r in extra ==> r in heap && r in old(heap) && heap[r] == old(heap)[r]
    {
      hide MarkOK;
      EvolvesRefl(heap);
      ExtraIsThere(heap, gray, grayagain, extra, within, gcstate == Atomic);
      while gray != []
        invariant Marking(extra, within) && Evolves(old(heap), heap) && Elems(grayagain) !! extra
        invariant forall r :: r in extra ==> r in heap && r in old(heap) && heap[r] == old(heap)[r]
        decreases |Whites(heap)| + |gray|
      {
        ghost var h0, again0 := heap, grayagain;
        PropagateMark(extra, within);
        EvolvesTrans(old(heap), h0, heap);
        assert Elems(grayagain) <= Elems(again0) || exists o :: o !in extra && Elems(grayagain) == Elems(again0) + {o};
      }
    }

    // markmt, preceded by the registry
    method MarkRegistryAndMt(ghost extra: set<Ref>, ghost within: set<Ref>)
      requires Marking(extra, within)
      requires forall r :: r in RefsIn([registry]) + RefsIn(mt) ==> r in heap && r in within
      modifies this`heap, this`gray
      ensures Marking(extra, within) && MarkEffect(old(heap), old(gray), heap, gray)
      ensures forall r :: r in RefsIn([registry]) + RefsIn(mt) ==> r in heap && !heap[r].color.White?
    {
      hide MarkOK;
      assert forall r :: registry == Coll(r) ==> r in RefsIn([registry]) by { assert registry in [registry]; }
      assert forall r :: Coll(r) in mt ==> r in RefsIn(mt);
      MarkValue(registry, extra, within);
      MarkAll(mt, extra, within);
      assert forall r :: r in RefsIn([registry]) ==> registry == Coll(r);
      assert forall r :: r in RefsIn(mt) ==> Coll(r) in mt;
    }

    // markroot: a new cycle starts with all objects white
    method MarkRoot(ghost within: set<Ref>)
      requires MarkOK(heap, [], [], {}, within, gcstate == Atomic) && RootsWithin(within)
      modifies this`heap, this`gray, this`grayagain
      ensures Marking({}, within) && Evolves(old(heap), heap) && grayagain == []
      ensures mainthread in heap && !heap[mainthread].color.White?
    {
      hide MarkOK, BodyEvolves;
      gray, grayagain := [], [];
      MarkValue(Coll(mainthread), {}, within);
      ghost var h0, g0 := heap, gray;
      MarkEvolves(old(heap), [], h0, g0);
      MarkRegistryAndMt({}, within);
      MarkEvolves(h0, g0, heap, gray);
      EvolvesTrans(old(heap), h0, heap);
    }

    ghost predicate RootsWithin(within: set<Ref>)
      reads this
    {
      mainthread in heap && mainthread in within && running in heap && running in within &&
      forall r :: r in RefsIn([registry]) + RefsIn(mt) ==> r in heap && r in within
    }

    ghost predicate RootsMarked()
      reads this
    {
      mainthread in heap && !heap[mainthread].color.White? && running in heap && !heap[running].color.White? &&
      forall r :: r in RefsIn([registry]) + RefsIn(mt) ==> r in heap && !heap[r].color.White?
    }

    // atomic, with no weak tables, no finalizers and no open upvalues
    method AtomicStep(ghost within: set<Ref>)
      requires gcstate == Propagate && gray == [] && Marking(Elems(grayagain), within) && RootsWithin(within)
      requires !IsWhite(heap, mainthread)
      modifies this`heap, this`gray, this`grayagain, this`gcstate, this`sweepstrgc, this`currentwhite
      ensures Evolves(old(heap), heap) && Tri(heap, {}, true) && NoDangling(heap) && StacksOK(heap) && RootsMarked()
      ensures forall r :: r in heap && !heap[r].color.White? ==> r in within
      ensures gcstate == SweepString && sweepstrgc == 0 && currentwhite == !old(currentwhite)
    {
      hide MarkOK, Evolves, Tri, NoDangling, StacksOK, Elems, RefsIn;
      EnterAtomic(heap, gray, grayagain, Elems(grayagain), within);
      gcstate := Atomic;
      MarkRootsAgain(within);
      ghost var h0 := heap;
      RetraverseGrays(within);
      MarksStay(h0, heap, {mainthread, running} + RefsIn([registry]) + RefsIn(mt));
      EvolvesTrans(old(heap), h0, heap);
      MarkingDone(heap, grayagain, within);
      sweepstrgc := 0;
      gcstate := SweepString;
      currentwhite := !currentwhite;
    }

    // The first half of atomic: roots that may have changed since markroot.
    method MarkRootsAgain(ghost within: set<Ref>)
      requires Marking(Elems(grayagain), within) && RootsWithin(within) && !IsWhite(heap, mainthread)
      modifies this`heap, this`gray
      ensures Marking(Elems(grayagain), within) && Evolves(old(heap), heap) && RootsMarked()
    {
      hide MarkOK, BodyEvolves;
      MarkValue(Coll(running), Elems(grayagain), within);
      ghost var h0, g0 := heap, gray;
      MarkEvolves(old(heap), old(gray), h0, g0);
      MarkRegistryAndMt(Elems(grayagain), within);
      MarkEvolves(h0, g0, heap, gray);
      EvolvesTrans(old(heap), h0, heap);
    }

    // retraversegrays without weak tables: the main gray list, then the saved 'grayagain'
    method RetraverseGrays(ghost within: set<Ref>)
      requires Marking(Elems(grayagain), within)
      modifies this`heap, this`gray, this`grayagain
      ensures Marking({}, within) && Evolves(old(heap), heap) && gray == []
    {
      var saved := grayagain;
      grayagain := [];
      SavedIsGray(heap, gray, saved, Elems(saved), within, gcstate == Atomic);
      hide MarkOK;
      PropagateAll(Elems(saved), within);
      ghost var h0 := heap;
      SavedBecomesGray(heap, grayagain, saved, within, gcstate == Atomic);
      gray := saved;
      PropagateAll({}, within);
      EvolvesTrans(old(heap), h0, heap);
    }

    // ----- sweeping -----

    // sweeplist: 'start' is the cell that p points to, 'pos' the one that the result points to
    method SweepList(list: seq<Ref>, start: nat, count: nat) returns (list': seq<Ref>, pos: nat)
      requires start <= |list| && Distinct(list) && forall r :: r in list ==> r in heap
      modifies this`heap
      ensures var end := SweepEnd(|list|, start, count);
              var kept := Survivors(old(heap), list[start..end], currentwhite);
              heap == SweptHeap(old(heap), list[start..end], currentwhite) &&
              list' == list[..start] + kept + list[end..] && pos == start + |kept|
    {
      hide Distinct, SweptSoFar;
      list', pos := list, start;
      var n := count;
      ghost var i, kept := 0, [];
      SweepBegins(heap, list, start, currentwhite);
      while pos < |list'| && n > 0
        invariant i == count - n && n >= 0 && pos == start + |kept| && |list'| == |kept| + |list| - i &&
                  start + i <= |list|
        invariant SweptSoFar(old(heap), list, start, i, currentwhite, kept, list', heap)
        decreases n
      {
        var curr := list'[pos];
        SweepTurn(old(heap), list, start, i, currentwhite, kept, list', heap);
        if IsDead(heap[curr], currentwhite) {
          list' := list'[..pos] + list'[pos + 1..];
          heap := heap - {curr};
        } else {
          heap := heap[curr := heap[curr].(color := White(currentwhite))];
          pos := pos + 1;
          kept := kept + [curr];
        }
        i, n := i + 1, n - 1;
      }
      SweepStops(old(heap), list, start, i, currentwhite, kept, list', heap, count);
    }

    // ----- one step -----

    // singlestep
    method SingleStep(ghost within: set<Ref>)
      requires Valid()
      modifies this`heap, this`gray, this`grayagain, this`allgc, this`strt, this`gcstate,
               this`currentwhite, this`sweepstrgc, this`sweepgc
      ensures StepOK(old(Snap()), Snap(), within)
    {
      match gcstate
      case Pause => StartCycle(within);
      case Propagate => PropagateStep(within);
      case SweepString => SweepStringStep(within);
      case SweepUdata =>
        PhaseChangeOK(Snap(), Snap().(phase := Sweep, sweepgc := 0), within);
        sweepgc := 0;                    // 'finobj' is empty: nothing has a finalizer
        gcstate := Sweep;
      case Sweep => SweepAllgcStep(within);
    }

    method StartCycle(ghost within: set<Ref>)
      requires Valid() && gcstate == Pause
      modifies this`heap, this`gray, this`grayagain, this`gcstate
      ensures StepOK(old(Snap()), Snap(), within)
    {
      hide Inv, MarkOK, Traced, Evolves, StepOK;
      ghost var s := Snap();
      ghost var start := if Traced(s, within) then within else heap.Keys;
      PauseIsMarkable(s, start);
      MarkRoot(start);
      gcstate := Propagate;
      assert Elems([]) == {};
      MarkStepOK(s, Snap(), within, start);
    }

    method PropagateStep(ghost within: set<Ref>)
      requires Valid() && gcstate == Propagate
      modifies this`heap, this`gray, this`grayagain, this`gcstate, this`currentwhite, this`sweepstrgc
      ensures StepOK(old(Snap()), Snap(), within)
    {
      hide Inv, MarkOK, Traced, BodyEvolves, StepOK, OnlyFrom, Tri, NoDangling, StacksOK, Evolves;
      ghost var s := Snap();
      ghost var start := if Traced(s, within) then within else heap.Keys;
      PropagateIsMarkable(s, start);
      if gray != [] {
        ghost var again := grayagain;
        PropagateMark(Elems(again), start);
        StaysMarked(s.heap, heap, mainthread);
        assert Elems(again) <= Elems(grayagain);
        AgainIsExtra(heap, gray, grayagain, Elems(again), start);
        MarkStepOK(s, Snap(), within, start);
      } else {
        TracedIsOnlyFrom(s, within);
        AtomicStep(start);
        AtomicStepOK(s, Snap(), within);
      }
    }

    method SweepStringStep(ghost within: set<Ref>)
      requires Valid() && gcstate == SweepString
      modifies this`heap, this`strt, this`gcstate, this`sweepstrgc
      ensures StepOK(old(Snap()), Snap(), within)
    {
      hide Inv, StepOK, Distinct, Survivors, SweptHeap, IsDead;
      ghost var s := Snap();
      SweepReady(s);
      if sweepstrgc < |strt| {
        ghost var b := strt[sweepstrgc];
        assert b[0..|b|] == b;
        var list, _ := SweepList(strt[sweepstrgc], 0, |strt[sweepstrgc]|);   // sweepwholelist
        assert list == Survivors(s.heap, b, currentwhite);
        strt, sweepstrgc := strt[sweepstrgc := list], sweepstrgc + 1;
        SweepStringStepOK(s, Snap(), within);
      } else {
        gcstate := SweepUdata;
        PhaseChangeOK(s, Snap(), within);
      }
    }

    method SweepAllgcStep(ghost within: set<Ref>)
      requires Valid() && gcstate == Sweep
      modifies this`heap, this`allgc, this`gcstate, this`sweepgc
      ensures StepOK(old(Snap()), Snap(), within)
    {
      SweepReady(Snap());
      if sweepgc < |allgc| {
        SweepSomeCells(within);
      } else {
        SweepMainThread(within);
      }
    }

    // 40 cells, or as many as are left
    method SweepSomeCells(ghost within: set<Ref>)
      requires Valid() && gcstate == Sweep && sweepgc < |allgc|
      modifies this`heap, this`allgc, this`sweepgc
      ensures StepOK(old(Snap()), Snap(), within)
      ensures sweepgc <= |allgc| && |allgc| - sweepgc == if old(|allgc| - sweepgc) <= 40 then 0 else old(|allgc| - sweepgc) - 40
    {
      hide Inv, StepOK, Distinct, IsDead, Survivors, SweptHeap;
      ghost var s := Snap();
      SweepReady(s);
      ghost var end := SweepEnd(|allgc|, sweepgc, GCSWEEPMAX);
      ghost var stretch := allgc[sweepgc..end];
      var cells, pos := SweepList(allgc, sweepgc, GCSWEEPMAX);
      allgc, sweepgc := cells, pos;
      SweepStepOK(s, Snap(), within, end, stretch, Survivors(s.heap, stretch, currentwhite));
    }

    method SweepMainThread(ghost within: set<Ref>)
      requires Valid() && gcstate == Sweep && sweepgc == |allgc|
      modifies this`heap, this`gcstate
      ensures StepOK(old(Snap()), Snap(), within)
    {
      hide Inv, StepOK, Distinct, IsDead, Survivors, SweptHeap;
      ghost var s := Snap();
      SweepReady(s);
      SingletonDistinct(mainthread);
      assert [mainthread] == [mainthread][0..1];
      var _, _ := SweepList([mainthread], 0, 1);
      gcstate := Pause;
      SweepEndOK(s, Snap(), within);
    }

    // ----- full collections -----

    // luaC_runtilstate(L, bitmask(GCSpause))
    method RunUntilPause(ghost within: set<Ref>)
      requires Valid()
      modifies this`heap, this`gray, this`grayagain, this`allgc, this`strt, this`gcstate,
               this`currentwhite, this`sweepstrgc, this`sweepgc
      ensures Valid() && gcstate == Pause && Spares(old(Snap()), Snap())
      ensures old(OnlyFrom(Snap(), within)) ==> OnlyFrom(Snap(), within)
    {
      hide Inv, Spares, OnlyFrom, Collects;
      ghost var s := Snap();
      SparesRefl(s);
      while gcstate != Pause
        invariant Valid() && Spares(s, Snap()) && (OnlyFrom(s, within) ==> OnlyFrom(Snap(), within))
        decreases Rank(gcstate), WorkLeft(Snap())
      {
        ghost var s1 := Snap();
        SingleStep(within);
        CollectsSpares(s1, Snap());
        SparesTrans(s, s1, Snap());
      }
    }

    // luaC_fullgc: afterwards exactly the reachable and the fixed objects are left
    method FullGC()
      requires Valid()
      modifies this`heap, this`gray, this`grayagain, this`allgc, this`strt, this`gcstate,
               this`currentwhite, this`sweepstrgc, this`sweepgc
      ensures Valid() && gcstate == Pause && Spares(old(Snap()), Snap())
      ensures forall r :: r in heap <==> old(Live(Snap(), r)) || (r in old(heap) && old(heap)[r].fixed)
    {
      hide Inv, Spares, OnlyFrom, Collects;
      ghost var s0 := Snap();
      if gcstate == Propagate {
        AbandonMarking(s0);
        sweepstrgc := 0;
        gcstate := SweepString;
      }
      SameHeapSpares(s0, Snap());
      ghost var s1 := Snap();
      RunUntilPause({});
      ghost var s2 := Snap();
      ghost var within := ReachSet(heap, Roots(s2));
      ReachSetTraced(s2);
      SingleStep(within);
      ghost var s3 := Snap();
      CollectsSpares(s2, s3);
      RunUntilPause(within);
      SparesTrans(s0, s1, s2);
      SparesTrans(s0, s2, s3);
      SparesTrans(s0, s3, Snap());
      ExactlyReachable(s0, s2, Snap(), within);
    }

    // ----- the size of the string table -----

    // luaS_resize: the table cannot change while its lists are being swept
    method ResizeStrings(newsize: nat)
      requires Valid() && newsize > 0
      modifies this`heap, this`gray, this`grayagain, this`allgc, this`strt, this`gcstate,
               this`currentwhite, this`sweepstrgc, this`sweepgc
      ensures Valid() && gcstate != SweepString && |strt| == newsize && Spares(old(Snap()), Snap())
      ensures forall b, r :: 0 <= b < |strt| && r in strt[b] ==> b == hash(r) % newsize
    {
      hide Inv, Spares, OnlyFrom, Collects, Placed;
      ghost var s := Snap();
      SparesRefl(s);
      while gcstate == SweepString
        invariant Valid() && Spares(s, Snap())
        decreases Rank(gcstate), WorkLeft(Snap())
      {
        ghost var s1 := Snap();
        SingleStep({});
        CollectsSpares(s1, Snap());
        SparesTrans(s, s1, Snap());
      }
      ghost var s2 := Snap();
      ListsApart(s2);
      Rehash(newsize);
      Resized(s2, Snap());
      CollectsSpares(s2, Snap());
      SparesTrans(s, s2, Snap());
    }

    // The loops of luaS_resize: list by list, each string in turn.
    method Rehash(newsize: nat)
      requires newsize > 0 && Apart(strt)
      modifies this`strt
      ensures Apart(strt) && SameStrings(old(strt), strt) && |strt| == newsize
      ensures forall b, r :: 0 <= b < |strt| && r in strt[b] ==> b == hash(r) % newsize
    {
      hide Apart, Distinct, InStrt;
      ghost var was := strt;
      var size := |strt|;
      if newsize > size {
        Grown(strt, newsize - size);
        strt := strt + seq(newsize - size, _ => []);
      }
      var i := 0;
      while i < size
        invariant i <= size <= |strt| && newsize <= |strt| == (if newsize > size then newsize else size)
        invariant Apart(strt) && SameStrings(was, strt) && Placed(strt, hash, i, size, newsize)
      {
        Detached(strt, i);
        var p := strt[i];
        strt := strt[i := []];
        while p != []
          invariant size <= |strt| && newsize <= |strt| == (if newsize > size then newsize else size)
          invariant Apart(strt + [p]) && SameStrings(was, strt + [p]) && Placed(strt, hash, i + 1, size, newsize)
          decreases |p|
        {
          var h := hash(p[0]) % newsize;
          Chained(strt, p, h);
          strt := strt[h := [p[0]] + strt[h]];
          p := p[1..];
        }
        assert (strt + [p])[..|strt|] == strt;
        Cut(strt + [p], |strt|);
        i := i + 1;
      }
      VanishingEmpty(strt, hash, size, newsize);
      Cut(strt, newsize);
      strt := strt[..newsize];
    }

    // ----- the running program -----

    // lua_newstate: the main thread, the registry and the table of globals
    constructor (main: Ref, reg: Ref, globals: Ref, hash: Ref -> nat)
      requires main != reg && main != globals && reg != globals
      ensures Valid() && gcstate == Pause && Live(Snap(), main) && Live(Snap(), globals) && |strt| == 32 && |mt| == 9
    {
      heap := map[main := Obj(Thread(Nils(BASIC_STACK_SIZE), 1), White(false), false),
                  reg := Obj(Table(Nil, [Coll(main), Coll(globals)], []), White(false), false),
                  globals := Obj(Table(Nil, [], []), White(false), false)];
      gray, grayagain, allgc := [], [], [globals, reg];
      strt := seq(MINSTRTABSIZE, _ => []);
      this.hash := hash;
      gcstate, currentwhite, sweepstrgc, sweepgc := Pause, false, 0, 0;
      mainthread, running, registry, mt := main, main, Coll(reg), Nils(LUA_NUMTAGS);
      new;
      InitialState(Snap(), main, reg, globals);
    }

    // luaC_newobj
    method NewObj(r: Ref, b: Body)
      requires Valid() && r !in heap && !b.Str? && (forall q :: !Mentions(b, q)) && (b.Thread? ==> b.top <= |b.stack|)
      modifies this`heap, this`allgc, this`sweepgc
      ensures Valid() && heap == old(heap)[r := Obj(b, White(currentwhite), false)]
    {
      hide Inv, Mentions;
      ghost var s := Snap();
      heap := heap[r := Obj(b, White(currentwhite), false)];
      allgc := [r] + allgc;
      if gcstate == Sweep && sweepgc > 0 { sweepgc := sweepgc + 1; }
      NewObjKeepsInv(s, Snap(), r, b);
    }

    // newlstr
    method NewStr(r: Ref, bucket: nat, fixed: bool)
      requires Valid() && r !in heap && bucket < |strt|
      modifies this`heap, this`strt
      ensures Valid() && heap == old(heap)[r := Obj(Str, White(currentwhite), fixed)]
    {
      hide Inv;
      ghost var s := Snap();
      heap := heap[r := Obj(Str, White(currentwhite), fixed)];
      strt := strt[bucket := [r] + strt[bucket]];
      NewStringKeepsInv(s, Snap(), r, bucket, fixed);
    }

    // luaS_newlstr when the string exists: resurrect it if it is dead
    method FindStr(r: Ref)
      requires Valid() && InStrt(strt, r)
      modifies this`heap
      ensures Valid() && Alive(heap, currentwhite, r) && heap.Keys == old(heap).Keys &&
              Bodies(heap) == Bodies(old(heap))
    {
      StringsAreThere(Snap(), r);
      if IsDead(heap[r], currentwhite) {
        ResurrectKeepsInv(Snap(), r);
        heap := heap[r := heap[r].(color := White(currentwhite))];
      }
    }

    // luaC_barrierback_
    method BarrierBack(o: Ref)
      requires o in heap && heap[o].color == Black && heap[o].body.Table?
      modifies this`heap, this`grayagain
      ensures heap == old(heap)[o := old(heap)[o].(color := Gray)] && grayagain == [o] + old(grayagain)
    {
      heap := heap[o := heap[o].(color := Gray)];
      grayagain := [o] + grayagain;
    }

    // luaC_barrier_
    method Barrier(o: Ref, v: Ref)
      requires o in heap && heap[o].color == Black && IsWhite(heap, v)
      requires gcstate == Propagate ==> Marking(Elems(grayagain) + {o}, heap.Keys)
      modifies this`heap, this`gray
      ensures gcstate == Propagate ==> Marking(Elems(grayagain) + {o}, heap.Keys) && v in heap && !heap[v].color.White? &&
                                       MarkEffect(old(heap), old(gray), heap, gray)
      ensures gcstate != Propagate ==> gray == old(gray) && heap == old(heap)[o := old(heap)[o].(color := White(currentwhite))]
    {
      hide MarkOK;
      if gcstate == Propagate {
        ReallyMarkObject(v, Elems(grayagain) + {o}, heap.Keys);
      } else {
        heap := heap[o := heap[o].(color := White(currentwhite))];
      }
    }

    // A stack slot or the top of a stack changes: no barrier.
    method SetStack(o: Ref, b: Body, ghost v: Value)
      requires Valid() && Alive(heap, currentwhite, o) && AliveValue(heap, currentwhite, v)
      requires heap[o].body.Thread? && AddsAtMost(heap[o].body, b, v)
      modifies this`heap
      ensures Valid() && heap == old(heap)[o := old(heap)[o].(body := b)]
    {
      hide InvBase, MarkOK, AddsAtMost;
      ghost var s := Snap();
      SetBodyKeepsInv(s, o, b, v);
      if gcstate == Propagate {
        ThreadsAreNotBlack(heap, gray, grayagain, o);
        SetBodyOwesNothing(heap, gray, grayagain, o, b, v);
      }
      heap := heap[o := heap[o].(body := b)];
      if gcstate == Propagate { SetBodyKeepsPropagate(s, o, b); }
    }

    // A reference written into an object other than a thread, with the barrier of its kind.
    method SetField(o: Ref, b: Body, v: Value)
      requires Valid() && Alive(heap, currentwhite, o) && AliveValue(heap, currentwhite, v)
      requires !heap[o].body.Thread? && !heap[o].body.Str? && AddsAtMost(heap[o].body, b, v) &&
               (heap[o].body.Table? <==> b.Table?)
      modifies this`heap, this`gray, this`grayagain
      ensures Valid() && heap.Keys == old(heap).Keys && heap[o].body == b
      ensures forall r :: r in heap && r != o ==> heap[r].body == old(heap)[r].body
    {
      hide InvBase, MarkOK, AddsAtMost, PhaseOK;
      ghost var s := Snap();
      SetBodyKeepsInv(s, o, b, v);
      if v.Coll? && heap[v.ref].color.White? && heap[o].color == Black {
        if gcstate == Propagate {
          SetFieldMarking(o, b, v.ref);
        } else {
          SetFieldSweeping(o, b, v.ref);
        }
      } else {
        if gcstate == Propagate {
          PropagateFacts(s);
          SetBodyOwesNothing(heap, gray, grayagain, o, b, v);
          SetBodyKeepsPropagate(s, o, b);
        }
        heap := heap[o := heap[o].(body := b)];
      }
    }

    method SetFieldMarking(o: Ref, b: Body, v: Ref)
      requires Valid() && Alive(heap, currentwhite, o) && IsWhite(heap, v) && heap[o].color == Black &&
               gcstate == Propagate
      requires !heap[o].body.Thread? && !heap[o].body.Str? && AddsAtMost(heap[o].body, b, Coll(v)) &&
               (heap[o].body.Table? <==> b.Table?)
      requires Alive(heap, currentwhite, v)
      modifies this`heap, this`gray, this`grayagain
      ensures Valid() && heap.Keys == old(heap).Keys && heap[o].body == b
      ensures forall r :: r in heap && r != o ==> heap[r].body == old(heap)[r].body
    {
      hide InvBase, MarkOK, AddsAtMost, PhaseOK, Needs, BodyEvolves, Elems;
      ghost var s := Snap();
      SetBodyKeepsInv(s, o, b, Coll(v));
      PropagateFacts(s);
      SetBodyOwesVisit(heap, gray, grayagain, Elems(grayagain), o, b, Coll(v));
      BlackNeeds(heap, gray, grayagain, o, b, Coll(v));
      heap := heap[o := heap[o].(body := b)];
      ghost var s1 := Snap();
      assert heap == SetBody(s.heap, o, b) && heap.Keys == s.heap.Keys;
      if b.Table? {
        BarrierBackMarkOK(heap, gray, grayagain, o);
        BarrierBack(o);
        BarrierBackInv(s1, Snap(), o);
      } else {
        Barrier(o, v);
        BarrierMarkOK(heap, gray, grayagain, o);
        MarkEvolves(s1.heap, s1.gray, heap, gray);
        StaysMarked(s1.heap, heap, mainthread);
        assert heap.Keys == s.heap.Keys;
        RemarkedInv(s1, Snap(), heap.Keys);
      }
    }

    method SetFieldSweeping(o: Ref, b: Body, v: Ref)
      requires Valid() && Alive(heap, currentwhite, o) && IsWhite(heap, v) && heap[o].color == Black &&
               gcstate != Propagate
      requires !heap[o].body.Thread? && !heap[o].body.Str? && AddsAtMost(heap[o].body, b, Coll(v)) &&
               (heap[o].body.Table? <==> b.Table?)
      requires Alive(heap, currentwhite, v)
      modifies this`heap, this`gray, this`grayagain
      ensures Valid() && heap.Keys == old(heap).Keys && heap[o].body == b
      ensures forall r :: r in heap && r != o ==> heap[r].body == old(heap)[r].body
    {
      hide InvBase, MarkOK, AddsAtMost, PhaseOK, Needs, BodyEvolves, Elems;
      ghost var s := Snap();
      SetBodyKeepsInv(s, o, b, Coll(v));
      heap := heap[o := heap[o].(body := b)];
      ghost var s1 := Snap();
      if b.Table? {
        SweepRecolorKeepsInv(s1, o, Gray);
        BarrierBack(o);
        GrayListsAreFree(s1.(heap := heap), Snap());
      } else {
        SweepRecolorKeepsInv(s1, o, White(currentwhite));
        Barrier(o, v);
      }
    }

    function Register(i: nat): Value
      reads this
    {
      Reg(Snap(), i)
    }

    // setobj to a slot of the running thread
    method SetRegister(dst: nat, v: Value)
      requires Valid() && AliveValue(heap, currentwhite, v)
      modifies this`heap
      ensures Valid() && heap.Keys == old(heap).Keys
      ensures Bodies(heap) == WriteReg(Bodies(old(heap)), running, dst, v)
    {
      hide Inv;
      RunningIsThread(Snap());
      var b := Write(heap[running].body, Slot(dst), v);
      WriteAddsAtMost(heap[running].body, Slot(dst), v);
      SetStack(running, b, v);
    }

    // One command of the program.  A slot that holds no suitable object makes it do nothing.
    method Execute(c: Cmd)
      requires Valid()
      modifies this
      ensures Valid() && Stepped(c, old(Snap()), Snap()) && forall r :: old(Live(Snap(), r)) ==> r in heap
    {
      hide Inv, StepOK, Spares, Live;
      ghost var s := Snap();
      if c.GcStep? || c.FullGc? || c.ResizeStrings? {
        LiveIsThere(s);
        Collect(c);
        SparedLive(s, Snap());
      } else {
        if c.New? || c.NewString? || c.Intern? {
          Allocate(c);
        } else if c.Load? || c.Store? || c.Move? {
          Access(c);
        } else {
          Reroot(c);
        }
        NothingFreed(s, Snap());
      }
    }

    method Collect(c: Cmd)
      requires Valid() && (c.GcStep? || c.FullGc? || c.ResizeStrings?)
      modifies this`heap, this`gray, this`grayagain, this`allgc, this`strt, this`gcstate,
               this`currentwhite, this`sweepstrgc, this`sweepgc
      ensures Valid() && Stepped(c, old(Snap()), Snap()) && Spares(old(Snap()), Snap())
    {
      hide Inv, Spares, Live;
      ghost var s := Snap();
      if c.FullGc? {
        FullGC();
      } else if c.ResizeStrings? {
        SparesRefl(s);
        if c.size > 0 { ResizeStrings(c.size); }
      } else {
        SingleStep({});
        CollectsSpares(s, Snap());
      }
    }

    method Allocate(c: Cmd)
      requires Valid() && (c.New? || c.NewString? || c.Intern?)
      modifies this`heap, this`allgc, this`sweepgc, this`strt
      ensures Valid() && old(heap).Keys <= heap.Keys && Bodies(heap) == AfterBodies(c, old(Snap()))
    {
      hide Valid, AfterBodies, WriteReg;
      AllocatesAsMeant(c, Snap());
      match c
      case New(r, dst, shape) => AllocateObject(r, dst, shape);
      case NewString(r, dst, bucket, fixed) => AllocateString(r, dst, bucket, fixed);
      case Intern(dst, bucket, pos) => ReuseString(dst, bucket, pos);
    }

    method AllocateObject(r: Ref, dst: nat, shape: Shape)
      requires Valid()
      modifies this`heap, this`allgc, this`sweepgc
      ensures Valid() && old(heap).Keys <= heap.Keys
      ensures Bodies(heap) == if r in old(heap) then Bodies(old(heap))
                              else WriteReg(Bodies(old(heap))[r := Fresh(shape)], running, dst, Coll(r))
    {
      hide Inv, Mentions, WriteReg, Fresh;
      if r !in heap {
        NewObj(r, Fresh(shape));
        assert Bodies(heap) == Bodies(old(heap))[r := Fresh(shape)];
        SetRegister(dst, Coll(r));
      }
    }

    method AllocateString(r: Ref, dst: nat, bucket: nat, fixed: bool)
      requires Valid()
      modifies this`heap, this`strt
      ensures Valid() && old(heap).Keys <= heap.Keys
      ensures Bodies(heap) == if r in old(heap) || bucket >= |old(strt)| then Bodies(old(heap))
                              else WriteReg(Bodies(old(heap))[r := Str], running, dst, Coll(r))
    {
      hide Inv, Mentions, WriteReg;
      if r !in heap && bucket < |strt| {
        NewStr(r, bucket, fixed);
        assert Bodies(heap) == Bodies(old(heap))[r := Str];
        SetRegister(dst, Coll(r));
      }
    }

    method ReuseString(dst: nat, bucket: nat, pos: nat)
      requires Valid()
      modifies this`heap
      ensures Valid() && old(heap).Keys <= heap.Keys
      ensures Bodies(heap) == if bucket < |strt| && pos < |strt[bucket]|
                              then WriteReg(Bodies(old(heap)), running, dst, Coll(strt[bucket][pos])) else Bodies(old(heap))
    {
      hide Inv, Mentions, WriteReg;
      if bucket < |strt| && pos < |strt[bucket]| {
        var r := strt[bucket][pos];
        FindStr(r);
        SetRegister(dst, Coll(r));
      }
    }

    method Access(c: Cmd)
      requires Valid() && (c.Load? || c.Store? || c.Move?)
      modifies this`heap, this`gray, this`grayagain
      ensures Valid() && old(heap).Keys <= heap.Keys && Bodies(heap) == AfterBodies(c, old(Snap()))
    {
      hide Inv, Mentions, Read, Write, AddsAtMost;
      RunningIsThread(Snap());
      match c
      case Move(dst, src) =>
        RegisterAlive(this, src);
        SetRegister(dst, Register(src));
      case Load(dst, obj, f) =>
        RegisterAlive(this, obj);
        if Register(obj).Coll? {
          FieldAlive(Snap(), Register(obj).ref, f);
          SetRegister(dst, Read(heap[Register(obj).ref].body, f));
        }
      case Store(obj, f, src) =>
        RegisterAlive(this, obj);
        RegisterAlive(this, src);
        if Register(obj).Coll? {
          var o, v := Register(obj).ref, Register(src);
          WriteAddsAtMost(heap[o].body, f, v);
          WriteKeepsKind(heap[o].body, f, v);
          if heap[o].body.Thread? {
            SetStack(o, Write(heap[o].body, f, v), v);
          } else if !heap[o].body.Str? {
            SetField(o, Write(heap[o].body, f, v), v);
          } else {
            StringsHaveNoFields(f, v);
          }
        }
    }

    method Reroot(c: Cmd)
      requires Valid() && (c.SetTop? || c.SetRegistry? || c.SetTypeMeta? || c.Resume?)
      modifies this`heap, this`registry, this`mt, this`running
      ensures Valid() && heap.Keys == old(heap).Keys && Bodies(heap) == AfterBodies(c, old(Snap()))
      ensures (registry, mt, running) == AfterRoots(c, old(Snap()))
    {
      hide Inv, AddsAtMost;
      ghost var s := Snap();
      RunningIsThread(s);
      match c
      case SetTop(n) =>
        if n <= |heap[running].body.stack| {
          TopAddsNothing(heap[running].body, n);
          SetStack(running, Thread(heap[running].body.stack, n), Nil);
        }
      case SetRegistry(src) =>
        RegisterAlive(this, src);
        registry := Register(src);
        RootsChange(s, Snap());
      case SetTypeMeta(tag, src) =>
        RegisterAlive(this, src);
        if tag < |mt| {
          mt := mt[tag := Register(src)];
          RootsChange(s, Snap());
        }
      case Resume(src) =>
        RegisterAlive(this, src);
        if Register(src).Coll? && heap[Register(src).ref].body.Thread? {
          running := Register(src).ref;
          RootsChange(s, Snap());
        }
    }

    // Any interleaving of allocation, reads, writes and collector work: the invariant holds
    // throughout, each command does what it means to the program or to the collector, and none
    // ever loses an object that the program could reach.
    method Run(program: seq<Cmd>) returns (ghost trace: seq<State>)
      requires Valid()
      modifies this
      ensures Valid() && |trace| == |program| + 1 && trace[0] == old(Snap()) && trace[|program|] == Snap()
      ensures forall i :: 0 <= i <= |program| ==> Inv(trace[i])
      ensures forall i :: 0 <= i < |program| ==> Stepped(program[i], trace[i], trace[i + 1])
      ensures forall i, r :: 0 <= i < |program| && Live(trace[i], r) ==> r in trace[i].heap && r in trace[i + 1].heap
    {
      hide Inv, Live, Stepped;
      trace := [Snap()];
      for i := 0 to |program|
        invariant Valid() && |trace| == i + 1 && trace[0] == old(Snap()) && trace[i] == Snap()
        invariant forall j :: 0 <= j <= i ==> Inv(trace[j])
        invariant forall j :: 0 <= j < i ==> Stepped(program[j], trace[j], trace[j + 1])
        invariant forall j, r :: 0 <= j < i && Live(trace[j], r) ==> r in trace[j].heap && r in trace[j + 1].heap
      {
        LiveIsThere(Snap());
        Execute(program[i]);
        trace := trace + [Snap()];
      }
    }
  }

  // What a command does: a step of the collector that keeps all that is reachable; a full
  // collection that leaves exactly that and the fixed objects; else its meaning to the program.
  ghost predicate Stepped(c: Cmd, s: State, s': State) {
    s'.mainthread == s.mainthread &&
    if c.GcStep? then StepOK(s, s', {}) && Spares(s, s')
    else if c.FullGc? then
      Spares(s, s') && s'.phase == Pause && forall r :: r in s'.heap <==> Live(s, r) || (r in s.heap && s.heap[r].fixed)
    else if c.ResizeStrings? then Spares(s, s') && (c.size > 0 ==> |s'.strt| == c.size)
    else Bodies(s'.heap) == AfterBodies(c, s) && (s'.registry, s'.mt, s'.running) == AfterRoots(c, s)
  }

  lemma AllocatesAsMeant(c: Cmd, s: State)
    requires c.New? || c.NewString? || c.Intern?
    ensures c.New? ==> AfterBodies(c, s) == if c.addr in s.heap then Bodies(s.heap)
                                            else WriteReg(Bodies(s.heap)[c.addr := Fresh(c.shape)], s.running, c.dst, Coll(c.addr))
    ensures c.NewString? ==> AfterBodies(c, s) == if c.addr in s.heap || c.bucket >= |s.strt| then Bodies(s.heap)
                                                  else WriteReg(Bodies(s.heap)[c.addr := Str], s.running, c.dst, Coll(c.addr))
    ensures c.Intern? ==> AfterBodies(c, s) == if c.bucket < |s.strt| && c.pos < |s.strt[c.bucket]|
                                               then WriteReg(Bodies(s.heap), s.running, c.dst, Coll(s.strt[c.bucket][c.pos])) else Bodies(s.heap)
  {
    hide WriteReg;
  }

  lemma SparedLive(s: State, s': State)
    requires Spares(s, s') && forall r :: Live(s, r) ==> r in s.heap
    ensures forall r :: Live(s, r) ==> r in s'.heap
  {
    hide Live;
  }

  lemma FieldsAreIn(h: Heap, again: seq<Ref>, gray: seq<Ref>, extra: set<Ref>, within: set<Ref>, atomic: bool, o: Ref)
    requires MarkOK(h, gray, again, extra, within, atomic) && o in h && o in within
    ensures forall r :: Edge(h[o].body, r) ==> r in h && r in within
    ensures forall r :: Mentions(h[o].body, r) ==> r in h
    ensures h[o].body.Thread? ==> h[o].body.top <= |h[o].body.stack|
  {
    forall r | Edge(h[o].body, r) ensures r in h && r in within {
      EdgeIsNeeded(h[o].body, r);
    }
  }

  lemma GrayHead(h: Heap, gray: seq<Ref>, again: seq<Ref>, extra: set<Ref>, within: set<Ref>, atomic: bool)
    requires MarkOK(h, gray, again, extra, within, atomic) && gray != []
    ensures gray[0] in h && h[gray[0]].color == Gray && Listable(h[gray[0]].body) && gray[0] in within
    ensures gray[0] !in extra && forall r :: r in extra ==> r in h && !h[r].color.White?
  {
    assert gray[0] in Elems(gray);
  }

  lemma StaysMarked(h: Heap, h': Heap, r: Ref)
    requires Evolves(h, h') && r in h && !h[r].color.White?
    ensures r in h' && !h'[r].color.White?
  {
    assert ObjEvolves(h[r], h'[r]);
  }

  lemma TracedIsOnlyFrom(s: State, within: set<Ref>)
    requires s.phase == Propagate
    ensures Traced(s, within) == OnlyFrom(s, within)
  {}

  lemma EvolvesRefl(h: Heap)
    ensures Evolves(h, h)
  {}

  lemma ExtraIsThere(h: Heap, gray: seq<Ref>, again: seq<Ref>, extra: set<Ref>, within: set<Ref>, atomic: bool)
    requires MarkOK(h, gray, again, extra, within, atomic)
    ensures forall r :: r in extra ==> r in h
  {}

  lemma AllWhiteMarkOK(h: Heap, currentwhite: bool, within: set<Ref>)
    requires AliveClosed(h, currentwhite) && StacksOK(h) && Closed(h, within)
    requires forall r :: r in h ==> h[r].color == White(currentwhite)
    ensures MarkOK(h, [], [], {}, within, false)
  {
    forall o, r | o in h && Mentions(h[o].body, r) ensures r in h {
      assert !IsDead(h[o], currentwhite);
      assert Alive(h, currentwhite, r);
    }
  }

  lemma AliveRoots(s: State)
    requires Inv(s)
    ensures forall r :: r in Roots(s) ==> Alive(s.heap, s.currentwhite, r)
    ensures s.mainthread in Roots(s) && s.running in Roots(s)
    ensures Roots(s) == {s.mainthread, s.running} + RefsIn([s.registry]) + RefsIn(s.mt)
  {}

  // Entering the atomic step strengthens the tri-colour invariant to whole stacks: a marked
  // thread is always on a gray list, so its visit is still owed.
  lemma EnterAtomic(h: Heap, gray: seq<Ref>, again: seq<Ref>, extra: set<Ref>, within: set<Ref>)
    requires MarkOK(h, gray, again, extra, within, false) && Elems(again) <= extra
    ensures MarkOK(h, gray, again, extra, within, true)
  {
    forall o, r | o in h && !h[o].color.White? && o !in Elems(gray) + extra && Needs(h[o].body, r, true)
      ensures r in h && !h[r].color.White? {
      assert !h[o].body.Thread?;
      assert Needs(h[o].body, r, false);
    }
  }

  lemma MarksStay(h: Heap, h': Heap, rs: set<Ref>)
    requires Evolves(h, h') && forall r :: r in rs ==> r in h && !h[r].color.White?
    ensures forall r :: r in rs ==> r in h' && !h'[r].color.White?
  {}

  lemma SavedIsGray(h: Heap, gray: seq<Ref>, saved: seq<Ref>, extra: set<Ref>, within: set<Ref>, atomic: bool)
    requires MarkOK(h, gray, saved, extra, within, atomic) && extra == Elems(saved)
    ensures MarkOK(h, gray, [], extra, within, atomic) && GrayList(h, saved) && Elems([]) !! extra
  {
    assert Elems(gray) + Elems(saved) + extra == Elems(gray) + Elems([]) + extra;
  }

  lemma SavedBecomesGray(h: Heap, again: seq<Ref>, saved: seq<Ref>, within: set<Ref>, atomic: bool)
    requires MarkOK(h, [], again, Elems(saved), within, atomic)
    requires GrayList(h, saved) && Elems(again) !! Elems(saved)
    ensures MarkOK(h, saved, again, {}, within, atomic)
  {
    assert Elems([]) + Elems(saved) == Elems(saved) + {};
    assert Elems([]) + Elems(again) + Elems(saved) == Elems(saved) + Elems(again) + {};
  }

  lemma MarkingDone(h: Heap, again: seq<Ref>, within: set<Ref>)
    requires MarkOK(h, [], again, {}, within, true)
    ensures Tri(h, {}, true) && NoDangling(h) && StacksOK(h) && forall r :: r in h && !h[r].color.White? ==> r in within
  {
    assert Elems([]) + {} == {};
  }

  lemma SurvivorsOneMore(h: Heap, list: seq<Ref>, start: nat, i: nat, currentwhite: bool)
    requires start + i < |list| && forall r :: r in list ==> r in h
    ensures Survivors(h, list[start..start + i + 1], currentwhite) ==
            Survivors(h, list[start..start + i], currentwhite) + (if IsDead(h[list[start + i]], currentwhite) then [] else [list[start + i]])
  {
    var before, curr, after := list[start..start + i], list[start + i], list[start..start + i + 1];
    assert after[..|after| - 1] == before && after[|after| - 1] == curr;
  }

  lemma NothingSwept(h: Heap, list: seq<Ref>, start: nat, currentwhite: bool)
    requires start <= |list|
    ensures Survivors(h, list[start..start], currentwhite) == [] && SweptHeap(h, list[start..start], currentwhite) == h
  {}

  lemma SweptOneMore(h: Heap, before: seq<Ref>, curr: Ref, currentwhite: bool)
    requires curr !in before && curr in h && forall r :: r in before ==> r in h
    ensures curr in SweptHeap(h, before, currentwhite) && SweptHeap(h, before, currentwhite)[curr] == h[curr]
    ensures SweptHeap(h, before + [curr], currentwhite) ==
            if IsDead(h[curr], currentwhite) then SweptHeap(h, before, currentwhite) - {curr}
            else SweptHeap(h, before, currentwhite)[curr := h[curr].(color := White(currentwhite))]
  {}

  lemma SweepCell(list: seq<Ref>, start: nat, i: nat)
    requires start + i < |list| && Distinct(list)
    ensures list[start..start + i + 1] == list[start..start + i] + [list[start + i]]
    ensures list[start + i] !in list[start..start + i]
    ensures list[start + i..] == [list[start + i]] + list[start + i + 1..]
  {
    var before := list[start..start + i];
    assert forall j :: 0 <= j < |before| ==> before[j] == list[start + j];
  }

  lemma CellsTurn(list: seq<Ref>, start: nat, i: nat, kept: seq<Ref>)
    requires start + i < |list|
    ensures var cells := list[..start] + kept + list[start + i..]; var pos := start + |kept|;
            pos < |cells| && cells[pos] == list[start + i] &&
            cells[..pos] + cells[pos + 1..] == list[..start] + kept + list[start + i + 1..] &&
            cells == list[..start] + (kept + [list[start + i]]) + list[start + i + 1..]
  {
    assert list[start + i..] == [list[start + i]] + list[start + i + 1..];
  }

  // One turn of the sweep loop: the cells are 'list' with its first i swept cells replaced by kept.
  // The first i cells from 'start' on have been swept: cells is the list now, h1 the heap.
  ghost predicate SweptSoFar(h: Heap, list: seq<Ref>, start: nat, i: nat, currentwhite: bool, kept: seq<Ref>,
                             cells: seq<Ref>, h1: Heap) {
    start + i <= |list| && Distinct(list) && (forall r :: r in list ==> r in h) &&
    var swept := list[start..start + i];
    (forall r :: r in swept ==> r in h) && kept == Survivors(h, swept, currentwhite) &&
    cells == list[..start] + kept + list[start + i..] && h1 == SweptHeap(h, swept, currentwhite)
  }

  lemma SweepBegins(h: Heap, list: seq<Ref>, start: nat, currentwhite: bool)
    requires start <= |list| && Distinct(list) && forall r :: r in list ==> r in h
    ensures SweptSoFar(h, list, start, 0, currentwhite, [], list, h)
  {
    hide Distinct, IsDead;
    NothingSwept(h, list, start, currentwhite);
  }

  lemma SweepStops(h: Heap, list: seq<Ref>, start: nat, i: nat, currentwhite: bool, kept: seq<Ref>, cells: seq<Ref>,
                   h1: Heap, count: nat)
    requires SweptSoFar(h, list, start, i, currentwhite, kept, cells, h1) && i <= count &&
             (start + i == |list| || i == count)
    ensures var end := SweepEnd(|list|, start, count);
            kept == Survivors(h, list[start..end], currentwhite) &&
            h1 == SweptHeap(h, list[start..end], currentwhite) &&
            cells == list[..start] + kept + list[end..]
  {
    hide Distinct, IsDead, Survivors, SweptHeap;
    assert start + i == SweepEnd(|list|, start, count);
  }

  lemma SweepTurn(h: Heap, list: seq<Ref>, start: nat, i: nat, currentwhite: bool, kept: seq<Ref>, cells: seq<Ref>,
                  h1: Heap)
    requires SweptSoFar(h, list, start, i, currentwhite, kept, cells, h1) && start + i < |list|
    ensures var pos := start + |kept|; pos < |cells| && cells[pos] in h1 && |cells| == |kept| + |list| - i
    ensures var pos := start + |kept|; var curr := cells[pos];
            if IsDead(h1[curr], currentwhite) then SweptSoFar(h, list, start, i + 1, currentwhite, kept, cells[..pos] + cells[pos + 1..], h1 - {curr})
            else SweptSoFar(h, list, start, i + 1, currentwhite, kept + [curr], cells, h1[curr := h1[curr].(color := White(currentwhite))])
  {
    hide IsDead, Distinct, Survivors, SweptHeap;
    SweepCell(list, start, i);
    CellsTurn(list, start, i, kept);
    SweptOneMore(h, list[start..start + i], list[start + i], currentwhite);
    SurvivorsOneMore(h, list, start, i, currentwhite);
  }

  lemma SingletonDistinct(r: Ref)
    ensures Distinct([r])
  {}

  lemma SweepReady(s: State)
    requires Inv(s)
    ensures Distinct(s.allgc) && (forall r :: r in s.allgc ==> r in s.heap) && s.mainthread in s.heap
    ensures forall b :: 0 <= b < |s.strt| ==> Distinct(s.strt[b]) && forall r :: r in s.strt[b] ==> r in s.heap
    ensures (s.phase == SweepString ==> s.sweepstrgc <= |s.strt|) && (s.phase == Sweep ==> s.sweepgc <= |s.allgc|)
  {}

  lemma PauseIsMarkable(s: State, start: set<Ref>)
    requires Inv(s) && s.phase == Pause && start == (if Traced(s, start) then start else s.heap.Keys)
    ensures MarkOK(s.heap, [], [], {}, start, false)
    ensures forall r :: r in Roots(s) ==> r in s.heap && r in start
  {
    AliveRoots(s);
    if !Traced(s, start) { AliveClosedIsClosed(s); }
    AllWhiteMarkOK(s.heap, s.currentwhite, start);
  }

  lemma AliveClosedIsClosed(s: State)
    requires Inv(s) && s.phase == Pause
    ensures Closed(s.heap, s.heap.Keys)
  {
    forall o, r | o in s.heap && Edge(s.heap[o].body, r) ensures r in s.heap.Keys {
      EdgeIsNeeded(s.heap[o].body, r);
      assert !IsDead(s.heap[o], s.currentwhite);
      assert Alive(s.heap, s.currentwhite, r);
    }
  }

  lemma PropagateIsMarkable(s: State, start: set<Ref>)
    requires Inv(s) && s.phase == Propagate && start == (if Traced(s, start) then start else s.heap.Keys)
    ensures MarkOK(s.heap, s.gray, s.grayagain, Elems(s.grayagain), start, false) && !IsWhite(s.heap, s.mainthread)
    ensures forall r :: r in Roots(s) ==> r in s.heap && r in start
  {
    AliveRoots(s);
  }

  lemma AgainIsExtra(h: Heap, gray: seq<Ref>, again: seq<Ref>, extra: set<Ref>, within: set<Ref>)
    requires MarkOK(h, gray, again, extra, within, false) && extra <= Elems(again)
    ensures MarkOK(h, gray, again, Elems(again), within, false)
  {
    TriWidens(h, Elems(gray) + extra, Elems(gray) + Elems(again), false);
  }

  lemma SparesRefl(s: State)
    ensures Spares(s, s)
  {}

  lemma SameHeapSpares(s: State, s': State)
    requires s' == s.(phase := s'.phase, sweepstrgc := s'.sweepstrgc)
    ensures Spares(s, s')
  {}

  lemma ReachSetTraced(s: State)
    requires Inv(s) && s.phase == Pause
    ensures Traced(s, ReachSet(s.heap, Roots(s)))
    ensures forall r :: r in ReachSet(s.heap, Roots(s)) <==> Live(s, r)
  {
    var within := ReachSet(s.heap, Roots(s));
    forall r | Live(s, r) ensures r in within { ReachableIsAlive(s, r); }
    forall r | r in Roots(s) ensures r in within {
      assert ReachIn(s.heap, Roots(s), 0, r);
      assert Live(s, r);
    }
    forall o, r | o in s.heap && o in within && Edge(s.heap[o].body, r) ensures r in within {
      var n: nat :| ReachIn(s.heap, Roots(s), n, o);
      assert ReachIn(s.heap, Roots(s), n + 1, r);
      assert Live(s, r);
    }
  }

  lemma ExactlyReachable(s0: State, s2: State, s: State, within: set<Ref>)
    requires Spares(s0, s2) && Spares(s0, s) && Inv(s) && s.phase == Pause && OnlyFrom(s, within)
    requires forall r :: r in within <==> Live(s2, r)
    ensures forall r :: r in s.heap <==> Live(s0, r) || (r in s0.heap && s0.heap[r].fixed)
  {
    forall r | Live(s0, r) ensures r in s.heap {
      assert Live(s, r);
      ReachableIsAlive(s, r);
    }
  }

  ghost predicate FreshState(s: State, main: Ref, reg: Ref, globals: Ref) {
    main != reg && main != globals && reg != globals &&
    s.heap.Keys == {main, reg, globals} &&
    s.heap[main] == Obj(Thread(Nils(BASIC_STACK_SIZE), 1), White(false), false) &&
    s.heap[reg] == Obj(Table(Nil, [Coll(main), Coll(globals)], []), White(false), false) &&
    s.heap[globals] == Obj(Table(Nil, [], []), White(false), false) &&
    s.allgc == [globals, reg] && |s.strt| == MINSTRTABSIZE && (forall b :: 0 <= b < |s.strt| ==> s.strt[b] == []) &&
    s.phase == Pause && !s.currentwhite && s.mainthread == s.running == main && s.registry == Coll(reg) &&
    s.mt == Nils(LUA_NUMTAGS)
  }

  lemma InitialState(s: State, main: Ref, reg: Ref, globals: Ref)
    requires FreshState(s, main, reg, globals)
    ensures Inv(s) && Live(s, main) && Live(s, globals)
  {
    InitialEdges(s, main, reg, globals);
    assert ListsOK(s.heap, s.allgc, s.strt, s.mainthread);
    hide Mentions, ListsOK;
    assert s.registry in [s.registry];
    assert reg in Roots(s) && main in Roots(s);
    assert ReachIn(s.heap, Roots(s), 0, main) && ReachIn(s.heap, Roots(s), 0, reg);
    assert ReachIn(s.heap, Roots(s), 1, globals);
  }

  lemma InitialEdges(s: State, main: Ref, reg: Ref, globals: Ref)
    requires FreshState(s, main, reg, globals)
    ensures forall r :: !Mentions(s.heap[main].body, r) && !Mentions(s.heap[globals].body, r)
    ensures forall r :: Mentions(s.heap[reg].body, r) ==> r == main || r == globals
    ensures Edge(s.heap[reg].body, globals)
  {
    assert Coll(globals) in s.heap[reg].body.arr;
  }

  lemma StringsAreThere(s: State, r: Ref)
    requires Inv(s) && InStrt(s.strt, r)
    ensures r in s.heap && s.heap[r].body.Str?
  {}

  lemma ThreadsAreNotBlack(h: Heap, gray: seq<Ref>, again: seq<Ref>, o: Ref)
    requires MarkOK(h, gray, again, Elems(again), h.Keys, false) && o in h && h[o].body.Thread?
    ensures h[o].color != Black
  {}

  lemma SetBodyKeepsPropagate(s: State, o: Ref, b: Body)
    requires Inv(s) && s.phase == Propagate && o in s.heap && InvBase(s.(heap := SetBody(s.heap, o, b)))
    requires MarkOK(SetBody(s.heap, o, b), s.gray, s.grayagain, Elems(s.grayagain), s.heap.Keys, false)
    ensures Inv(s.(heap := SetBody(s.heap, o, b)))
  {
    hide InvBase, MarkOK;
    assert SetBody(s.heap, o, b).Keys == s.heap.Keys;
  }

  lemma PropagateFacts(s: State)
    requires Inv(s) && s.phase == Propagate
    ensures MarkOK(s.heap, s.gray, s.grayagain, Elems(s.grayagain), s.heap.Keys, false)
    ensures s.mainthread in s.heap && !s.heap[s.mainthread].color.White?
    ensures forall r :: r in s.heap ==> s.heap[r].color != White(!s.currentwhite)
  {
    hide MarkOK;
  }

  lemma BarrierBackInv(s: State, s': State, o: Ref)
    requires InvBase(s) && s.phase == Propagate && o in s.heap && s.heap[o].color == Black
    requires forall r :: r in s.heap ==> s.heap[r].color != White(!s.currentwhite)
    requires s.mainthread in s.heap && !s.heap[s.mainthread].color.White?
    requires s' == s.(heap := Recolor(s.heap, o, Gray), grayagain := [o] + s.grayagain)
    requires MarkOK(s'.heap, s'.gray, s'.grayagain, Elems(s'.grayagain), s'.heap.Keys, false)
    ensures Inv(s')
  {
    hide MarkOK, ListsOK, AliveClosed, StacksOK, FixedAreStrings;
    RecolorKeepsInvBase(s, o, Gray);
  }

  // Outside the marking phase the gray lists have no meaning.
  lemma GrayListsAreFree(s: State, s': State)
    requires Inv(s) && s.phase != Propagate && s' == s.(gray := s'.gray, grayagain := s'.grayagain)
    ensures Inv(s')
  {
    hide MarkOK;
  }

  lemma LiveIsThere(s: State)
    requires Inv(s)
    ensures forall r :: Live(s, r) ==> r in s.heap
  {
    forall r | Live(s, r) ensures r in s.heap { ReachableIsAlive(s, r); }
  }

  lemma NothingFreed(s: State, s': State)
    requires Inv(s) && s.heap.Keys <= s'.heap.Keys
    ensures forall r :: Live(s, r) ==> r in s'.heap
  {
    LiveIsThere(s);
  }

  lemma RunningIsThread(s: State)
    requires Inv(s)
    ensures Alive(s.heap, s.currentwhite, s.running) && s.heap[s.running].body.Thread?
  {
    hide MarkOK;
  }

  lemma RegisterAlive(g: GlobalState, i: nat)
    requires g.Valid()
    ensures AliveValue(g.heap, g.currentwhite, g.Register(i))
  {
    RunningIsThread(g.Snap());
    if g.Register(i).Coll? {
      assert Mentions(g.heap[g.running].body, g.Register(i).ref);
      assert Alive(g.heap, g.currentwhite, g.Register(i).ref);
    }
  }

  lemma FieldAlive(s: State, o: Ref, f: Field)
    requires Inv(s) && Alive(s.heap, s.currentwhite, o)
    ensures AliveValue(s.heap, s.currentwhite, Read(s.heap[o].body, f))
  {
    hide MarkOK, Read, Mentions;
    ReadMentions(s.heap[o].body, f);
    if Read(s.heap[o].body, f).Coll? { assert Alive(s.heap, s.currentwhite, Read(s.heap[o].body, f).ref); }
  }

  lemma WriteKeepsKind(b: Body, f: Field, v: Value)
    ensures Write(b, f, v).Table? <==> b.Table?
  {}

  lemma TopAddsNothing(b: Body, n: nat)
    requires b.Thread? && n <= |b.stack|
    ensures AddsAtMost(b, Thread(b.stack, n), Nil)
  {}

  lemma RootsChange(s: State, s': State)
    requires Inv(s) && s' == s.(registry := s'.registry, mt := s'.mt, running := s'.running)
    requires AliveValue(s.heap, s.currentwhite, s'.registry) || s'.registry == s.registry
    requires forall v :: v in s'.mt ==> v in s.mt || AliveValue(s.heap, s.currentwhite, v)
    requires s'.running == s.running || (Alive(s.heap, s.currentwhite, s'.running) && s.heap[s'.running].body.Thread?)
    ensures Inv(s')
  {
    hide MarkOK;
    RootsKeepInv(s, s');
  }

  lemma StringsHaveNoFields(f: Field, v: Value)
    ensures Write(Str, f, v) == Str
  {}
}
