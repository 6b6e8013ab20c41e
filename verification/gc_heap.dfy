// The collectable heap of the Lua core (lobject.h, lgc.h): objects, colours, reachability and
// the invariants the incremental collector keeps.
module GcHeap {

  // An address.  Addresses of freed objects may be handed out again.
  type Ref = nat

  // A slot.  A NULL pointer is Nil; DeadKey is the tag that 'removeentry' puts on a table key.
  datatype Value = Nil | Atom(id: int) | Coll(ref: Ref) | DeadKey(was: Ref)

  datatype Entry = Entry(key: Value, val: Value)

  datatype Body =
    | Str
    | Udata(metatable: Value, env: Value)
    | Upval(cell: Value)                            // closed upvalue
    | Closure(proto: Value, upvals: seq<Value>)
    | Table(metatable: Value, arr: seq<Value>, nodes: seq<Entry>)
    | Thread(stack: seq<Value>, top: nat)
    | Proto(consts: seq<Value>)                     // constants, nested prototypes and names

  datatype Color = White(which: bool) | Gray | Black

  datatype Obj = Obj(body: Body, color: Color, fixed: bool)

  type Heap = map<Ref, Obj>

  datatype Phase = Propagate | Atomic | SweepString | SweepUdata | Sweep | Pause

  datatype State = State(heap: Heap, gray: seq<Ref>, grayagain: seq<Ref>,
                         allgc: seq<Ref>, strt: seq<seq<Ref>>,
                         phase: Phase, currentwhite: bool, sweepstrgc: nat, sweepgc: nat,
                         mainthread: Ref, running: Ref, registry: Value, mt: seq<Value>)

  // ----- what an object refers to -----

  ghost predicate Edge(b: Body, r: Ref) {
    match b
    case Str => false
    case Udata(mt, env) => mt == Coll(r) || env == Coll(r)
    case Upval(v) => v == Coll(r)
    case Closure(p, us) => p == Coll(r) || Coll(r) in us
    case Table(mt, arr, nodes) =>
      mt == Coll(r) || Coll(r) in arr ||
      exists i :: 0 <= i < |nodes| && nodes[i].val != Nil && (nodes[i].key == Coll(r) || nodes[i].val == Coll(r))
    case Thread(stack, top) => exists i :: 0 <= i < top && i < |stack| && stack[i] == Coll(r)
    case Proto(ks) => Coll(r) in ks
  }

  // Every reference stored anywhere in the object, whether or not it keeps its target alive:
  // keys of empty table entries and stack slots above the top are the additional ones.
  ghost predicate Mentions(b: Body, r: Ref) {
    match b
    case Table(mt, arr, nodes) =>
      mt == Coll(r) || Coll(r) in arr ||
      exists i :: 0 <= i < |nodes| && (nodes[i].key == Coll(r) || nodes[i].val == Coll(r))
    case Thread(stack, top) => Coll(r) in stack
    case _ => Edge(b, r)
  }

  // What a traversal has to leave marked: the whole object, except that before the atomic step
  // the part of a stack above the top is not looked at.
  ghost predicate Needs(b: Body, r: Ref, atomic: bool) {
    if b.Thread? && !atomic then Edge(b, r) else Mentions(b, r)
  }

  // ----- reachability -----

  ghost predicate ReachIn(h: Heap, roots: set<Ref>, n: nat, r: Ref) {
    if n == 0 then r in roots
    else exists o :: o in h && ReachIn(h, roots, n - 1, o) && Edge(h[o].body, r)
  }

  ghost predicate Reachable(h: Heap, roots: set<Ref>, r: Ref) {
    exists n: nat :: ReachIn(h, roots, n, r)
  }

  ghost function RefsIn(vs: seq<Value>): set<Ref> {
    set v | v in vs && v.Coll? :: v.ref
  }

  ghost function Roots(s: State): set<Ref> {
    {s.mainthread, s.running} + RefsIn([s.registry]) + RefsIn(s.mt)
  }

  ghost predicate Live(s: State, r: Ref) { Reachable(s.heap, Roots(s), r) }

  ghost predicate Closed(h: Heap, within: set<Ref>) {
    forall o, r :: o in h && o in within && Edge(h[o].body, r) ==> r in within
  }

  // A set that holds the roots and is closed under references holds everything reachable.
  lemma {:induction false} ReachStaysInside(h: Heap, roots: set<Ref>, within: set<Ref>, n: nat, r: Ref)
    requires Closed(h, within) && roots <= within && ReachIn(h, roots, n, r)
    ensures r in within
  {
    if n > 0 {
      var o :| o in h && ReachIn(h, roots, n - 1, o) && Edge(h[o].body, r);
      ReachStaysInside(h, roots, within, n - 1, o);
    }
  }

  ghost function ReachSet(h: Heap, roots: set<Ref>): set<Ref> {
    set r | r in h && Reachable(h, roots, r)
  }

  // Reachability in one heap carries over to another that has the reachable objects' edges.
  lemma {:induction false} ReachCarries(h: Heap, h': Heap, roots: set<Ref>, n: nat, r: Ref)
    requires forall o, k: nat :: o in h && ReachIn(h, roots, k, o) ==> o in h'
    requires forall o, q :: o in h && o in h' && Edge(h[o].body, q) ==> Edge(h'[o].body, q)
    requires ReachIn(h, roots, n, r)
    ensures ReachIn(h', roots, n, r)
  {
    if n > 0 {
      var o :| o in h && ReachIn(h, roots, n - 1, o) && Edge(h[o].body, r);
      ReachCarries(h, h', roots, n - 1, o);
    }
  }

  // ----- colours -----

  predicate IsWhite(h: Heap, r: Ref) { r in h && h[r].color.White? }

  // 'isdeadm': the other white, and not fixed.
  predicate IsDead(o: Obj, currentwhite: bool) { o.color == White(!currentwhite) && !o.fixed }

  ghost predicate Alive(h: Heap, currentwhite: bool, r: Ref) { r in h && !IsDead(h[r], currentwhite) }

  ghost predicate AliveValue(h: Heap, currentwhite: bool, v: Value) {
    v.Coll? ==> Alive(h, currentwhite, v.ref)
  }

  ghost function Whites(h: Heap): set<Ref> { set r | r in h && h[r].color.White? }

  predicate Listable(b: Body) { b.Closure? || b.Table? || b.Thread? || b.Proto? }

  // ----- how a heap may change while the collector marks -----

  ghost predicate Wiped(v: Value, v': Value) { v' == v || v' == Nil }

  ghost predicate EntryEvolves(e: Entry, e': Entry) {
    e' == e || (e.val == Nil && e.key.Coll? && e' == Entry(DeadKey(e.key.ref), Nil))
  }

  // Only keys of empty entries and stack slots above the top are ever touched.
  ghost predicate BodyEvolves(b: Body, b': Body) {
    b' == b ||
    (b.Table? && b'.Table? && b'.metatable == b.metatable && b'.arr == b.arr && |b'.nodes| == |b.nodes| &&
     forall i :: 0 <= i < |b.nodes| ==> EntryEvolves(b.nodes[i], b'.nodes[i])) ||
    (b.Thread? && b'.Thread? && b'.top == b.top && |b'.stack| == |b.stack| &&
     (forall i :: 0 <= i < b.top && i < |b.stack| ==> b'.stack[i] == b.stack[i]) &&
     forall i :: 0 <= i < |b.stack| ==> Wiped(b.stack[i], b'.stack[i]))
  }

  ghost predicate ObjEvolves(o: Obj, o': Obj) {
    o'.fixed == o.fixed && BodyEvolves(o.body, o'.body) &&
    (o'.color == o.color || (!o'.color.White? && !o.color.Black?))
  }

  ghost predicate Evolves(h: Heap, h': Heap) {
    h'.Keys == h.Keys && forall r :: r in h ==> ObjEvolves(h[r], h'[r])
  }

  lemma SameBodyEvolves(b: Body)
    ensures BodyEvolves(b, b)
  {}

  lemma BodyEvolvesTrans(a: Body, b: Body, c: Body)
    requires BodyEvolves(a, b) && BodyEvolves(b, c)
    ensures BodyEvolves(a, c)
  {
    if a.Table? && b != a && c != b {
      forall i | 0 <= i < |a.nodes| ensures EntryEvolves(a.nodes[i], c.nodes[i]) {
        assert EntryEvolves(a.nodes[i], b.nodes[i]) && EntryEvolves(b.nodes[i], c.nodes[i]);
      }
    } else if a.Thread? && b != a && c != b {
      forall i | 0 <= i < |a.stack| ensures Wiped(a.stack[i], c.stack[i]) {
        assert Wiped(a.stack[i], b.stack[i]) && Wiped(b.stack[i], c.stack[i]);
      }
    }
  }

  lemma EvolvesTrans(a: Heap, b: Heap, c: Heap)
    requires Evolves(a, b) && Evolves(b, c)
    ensures Evolves(a, c)
  {
    forall r | r in a ensures ObjEvolves(a[r], c[r]) {
      assert ObjEvolves(a[r], b[r]) && ObjEvolves(b[r], c[r]);
      BodyEvolvesTrans(a[r].body, b[r].body, c[r].body);
    }
  }

  // What evolution cannot change: the edges.  What it cannot add: mentions.
  lemma EvolvedEdges(b: Body, b': Body, r: Ref)
    requires BodyEvolves(b, b')
    ensures Edge(b', r) == Edge(b, r)
    ensures Mentions(b', r) ==> Mentions(b, r)
    ensures forall atomic :: Needs(b', r, atomic) ==> Needs(b, r, atomic)
  {
    if b.Table? && b' != b {
      forall i | 0 <= i < |b.nodes| ensures EntryEvolves(b.nodes[i], b'.nodes[i]) {}
      if Edge(b, r) && b.metatable != Coll(r) && Coll(r) !in b.arr {
        var i :| 0 <= i < |b.nodes| && b.nodes[i].val != Nil && (b.nodes[i].key == Coll(r) || b.nodes[i].val == Coll(r));
        assert b'.nodes[i] == b.nodes[i];
      }
    } else if b.Thread? && b' != b {
      if Coll(r) in b'.stack {
        var i :| 0 <= i < |b'.stack| && b'.stack[i] == Coll(r);
        assert Wiped(b.stack[i], b'.stack[i]);
      }
    }
  }

  lemma EvolvesClosed(h: Heap, h': Heap, within: set<Ref>)
    requires Evolves(h, h') && Closed(h, within)
    ensures Closed(h', within)
  {
    forall o, r | o in h' && o in within && Edge(h'[o].body, r) ensures r in within {
      assert ObjEvolves(h[o], h'[o]);
      EvolvedEdges(h[o].body, h'[o].body, r);
    }
  }

  // ----- the marking invariant -----

  // Everything the heap mentions is in the heap.
  ghost predicate NoDangling(h: Heap) {
    forall o, r :: o in h && Mentions(h[o].body, r) ==> r in h
  }

  ghost predicate StacksOK(h: Heap) {
    forall o :: o in h && h[o].body.Thread? ==> h[o].body.top <= |h[o].body.stack|
  }

  // The tri-colour invariant: a marked object that no longer waits for a visit refers only to
  // marked objects.
  ghost predicate Tri(h: Heap, pending: set<Ref>, atomic: bool) {
    forall o, r :: o in h && !h[o].color.White? && o !in pending && Needs(h[o].body, r, atomic) ==>
      r in h && !h[r].color.White?
  }

  ghost predicate Distinct(s: seq<Ref>) {
    forall i, j :: 0 <= i < j < |s| ==> s[i] != s[j]
  }

  ghost function Elems(s: seq<Ref>): set<Ref> { set r | r in s }

  // Objects on a gray list are gray and of a kind that can be there, once each.
  ghost predicate GrayList(h: Heap, gray: seq<Ref>) {
    Distinct(gray) && forall r :: r in gray ==> r in h && h[r].color == Gray && Listable(h[r].body)
  }

  // Every gray object other than a string is on some list; threads never turn black.
  ghost predicate GraysListed(h: Heap, listed: set<Ref>) {
    forall r :: r in h ==>
      (h[r].color == Gray && !h[r].body.Str? ==> r in listed) &&
      (h[r].color == Black ==> !h[r].body.Thread?)
  }

  // gray: the list being emptied; again: 'grayagain'; extra: objects whose visit is owed
  // otherwise; within: a closed set from which marking started.
  ghost predicate MarkOK(h: Heap, gray: seq<Ref>, again: seq<Ref>, extra: set<Ref>, within: set<Ref>, atomic: bool) {
    NoDangling(h) && StacksOK(h) && Closed(h, within) &&
    Tri(h, Elems(gray) + extra, atomic) &&
    GrayList(h, gray) && GrayList(h, again) &&
    Elems(gray) !! extra && Elems(gray) !! Elems(again) &&
    (forall r :: r in extra ==> r in h && !h[r].color.White?) &&
    GraysListed(h, Elems(gray) + Elems(again) + extra) &&
    forall r :: r in h && !h[r].color.White? ==> r in within
  }

  lemma EdgeIsNeeded(b: Body, r: Ref)
    requires Edge(b, r)
    ensures Mentions(b, r) && Needs(b, r, true) && Needs(b, r, false)
  {}

  // Marking turns white objects gray or black and touches nothing else; what it adds to the gray
  // list it takes from the white objects.
  ghost predicate MarkEffect(h: Heap, gray: seq<Ref>, h': Heap, gray': seq<Ref>) {
    h'.Keys == h.Keys &&
    (forall r :: r in h ==> h'[r] == h[r] || (h[r].color.White? && !h'[r].color.White? && h'[r] == h[r].(color := h'[r].color))) &&
    |Whites(h')| + |gray'| <= |Whites(h)| + |gray| && |Whites(h')| <= |Whites(h)|
  }

  ghost predicate EntryMarked(h: Heap, e: Entry) {
    forall r :: e.key == Coll(r) || e.val == Coll(r) ==> r in h && !h[r].color.White?
  }

  // The visit of o also marks white objects, and may empty slots of o that hold nothing alive.
  ghost predicate VisitEffect(h: Heap, gray: seq<Ref>, h': Heap, gray': seq<Ref>, o: Ref) {
    h'.Keys == h.Keys && o in h &&
    h'[o].color == h[o].color && h'[o].fixed == h[o].fixed && BodyEvolves(h[o].body, h'[o].body) &&
    (forall r :: r in h && r != o ==> h'[r] == h[r] || (h[r].color.White? && !h'[r].color.White? && h'[r] == h[r].(color := h'[r].color))) &&
    |Whites(h')| + |gray'| <= |Whites(h)| + |gray| && |Whites(h')| <= |Whites(h)|
  }

  lemma VisitEffectTrans(h: Heap, g: seq<Ref>, h1: Heap, g1: seq<Ref>, h2: Heap, g2: seq<Ref>, o: Ref)
    requires VisitEffect(h, g, h1, g1, o) && VisitEffect(h1, g1, h2, g2, o)
    ensures VisitEffect(h, g, h2, g2, o)
  {
    BodyEvolvesTrans(h[o].body, h1[o].body, h2[o].body);
  }

  lemma VisitEvolves(h: Heap, g: seq<Ref>, o: Ref, c: Color, h': Heap, g': seq<Ref>)
    requires o in h && h[o].color == Gray && !c.White?
    requires VisitEffect(h[o := h[o].(color := c)], g, h', g', o)
    ensures Evolves(h, h') && |Whites(h')| + |g'| <= |Whites(h)| + |g|
  {
    assert Whites(h[o := h[o].(color := c)]) == Whites(h);
  }

  lemma MarkEvolves(h: Heap, g: seq<Ref>, h': Heap, g': seq<Ref>)
    requires MarkEffect(h, g, h', g')
    ensures Evolves(h, h')
  {}

  // ----- single colour changes keep the marking invariant -----

  function Recolor(h: Heap, o: Ref, c: Color): Heap
    requires o in h
  {
    h[o := h[o].(color := c)]
  }

  // Recolouring to a marked colour keeps bodies, hence what is mentioned and what is closed; it
  // keeps the tri-colour invariant if the object is pending or refers to nothing.
  lemma RecolorKeepsTri(h: Heap, o: Ref, c: Color, within: set<Ref>, pending: set<Ref>, atomic: bool)
    requires o in h && !c.White? && NoDangling(h) && Closed(h, within) && Tri(h, pending, atomic)
    requires o in pending || h[o].body.Str?
    ensures NoDangling(Recolor(h, o, c)) && Closed(Recolor(h, o, c), within) && Tri(Recolor(h, o, c), pending, atomic)
  {
    var h' := Recolor(h, o, c);
    forall p, r | p in h' && Mentions(h'[p].body, r) ensures r in h' { assert Mentions(h[p].body, r); }
    forall p, r | p in h' && p in within && Edge(h'[p].body, r) ensures r in within { assert Edge(h[p].body, r); }
    forall p, r | p in h' && !h'[p].color.White? && p !in pending && Needs(h'[p].body, r, atomic)
      ensures r in h' && !h'[r].color.White? {
      assert Needs(h[p].body, r, atomic);
    }
  }

  lemma RecolorKeepsStacks(h: Heap, o: Ref, c: Color)
    requires o in h && StacksOK(h)
    ensures StacksOK(Recolor(h, o, c))
  {}

  lemma TriWidens(h: Heap, pending: set<Ref>, pending': set<Ref>, atomic: bool)
    requires Tri(h, pending, atomic) && pending <= pending'
    ensures Tri(h, pending', atomic)
  {}

  lemma MarkingShrinksWhites(h: Heap, o: Ref, c: Color)
    requires IsWhite(h, o) && !c.White?
    ensures |Whites(Recolor(h, o, c))| == |Whites(h)| - 1
  {
    assert Whites(Recolor(h, o, c)) == Whites(h) - {o};
  }

  // White to gray: the object's visit is now owed (strings need none).
  lemma GrayKeepsMarkOK(h: Heap, gray: seq<Ref>, again: seq<Ref>, extra: set<Ref>, within: set<Ref>, atomic: bool,
                        o: Ref)
    requires MarkOK(h, gray, again, extra, within, atomic) && IsWhite(h, o) && o in within
    ensures MarkOK(Recolor(h, o, Gray), gray, again, if h[o].body.Str? then extra else extra + {o}, within, atomic)
    ensures o !in gray && o !in again && o !in extra
  {
    hide NoDangling, Closed, Tri, StacksOK, Distinct;
    var extra' := if h[o].body.Str? then extra else extra + {o};
    RecolorKeepsStacks(h, o, Gray);
    TriWidens(h, Elems(gray) + extra, Elems(gray) + extra', atomic);
    RecolorKeepsTri(h, o, Gray, within, Elems(gray) + extra', atomic);
  }

  lemma PushKeepsMarkOK(h: Heap, gray: seq<Ref>, again: seq<Ref>, extra: set<Ref>, within: set<Ref>, atomic: bool,
                        o: Ref)
    requires MarkOK(h, gray, again, extra + {o}, within, atomic)
    requires o in h && h[o].color == Gray && Listable(h[o].body) && o !in extra && o !in gray && o !in again
    ensures MarkOK(h, [o] + gray, again, extra, within, atomic)
  {
    assert Elems([o] + gray) == Elems(gray) + {o};
    assert Elems(gray) + (extra + {o}) == Elems([o] + gray) + extra;
    assert Elems(gray) + Elems(again) + (extra + {o}) == Elems([o] + gray) + Elems(again) + extra;
  }

  lemma PopKeepsMarkOK(h: Heap, gray: seq<Ref>, again: seq<Ref>, extra: set<Ref>, within: set<Ref>, atomic: bool)
    requires MarkOK(h, gray, again, extra, within, atomic) && gray != []
    ensures MarkOK(h, gray[1..], again, extra + {gray[0]}, within, atomic)
    ensures gray[0] !in gray[1..] && gray[0] !in extra && gray[0] !in again
  {
    var o := gray[0];
    assert gray == [o] + gray[1..];
    assert Elems(gray) == Elems(gray[1..]) + {o};
    assert Elems(gray[1..]) + (extra + {o}) == Elems(gray) + extra;
    assert Elems(gray[1..]) + Elems(again) + (extra + {o}) == Elems(gray) + Elems(again) + extra;
    forall i, j | 0 <= i < j < |gray[1..]| ensures gray[1..][i] != gray[1..][j] {
      assert gray[1..][i] == gray[i + 1] && gray[1..][j] == gray[j + 1];
    }
  }

  // Gray to black while the visit is still owed.
  lemma BlackKeepsMarkOK(h: Heap, gray: seq<Ref>, again: seq<Ref>, extra: set<Ref>, within: set<Ref>, atomic: bool,
                         o: Ref)
    requires MarkOK(h, gray, again, extra, within, atomic)
    requires o in extra && o in h && h[o].color == Gray && !h[o].body.Thread? && o !in again
    ensures MarkOK(Recolor(h, o, Black), gray, again, extra, within, atomic)
    ensures Evolves(h, Recolor(h, o, Black)) && Whites(Recolor(h, o, Black)) == Whites(h)
  {
    RecolorKeepsTri(h, o, Black, within, Elems(gray) + extra, atomic);
  }

  // The visit of o is done once everything it needs is marked.
  lemma VisitDone(h: Heap, gray: seq<Ref>, again: seq<Ref>, extra: set<Ref>, within: set<Ref>, atomic: bool, o: Ref)
    requires MarkOK(h, gray, again, extra + {o}, within, atomic)
    requires o in h && (h[o].color == Gray ==> o in again)
    requires forall r :: Needs(h[o].body, r, atomic) ==> r in h && !h[r].color.White?
    ensures MarkOK(h, gray, again, extra, within, atomic)
  {
    assert Elems(gray) + (extra + {o}) == Elems(gray) + extra + {o};
  }

  // Emptying slots of an object whose visit is owed.
  lemma EmptyingKeepsTri(h: Heap, o: Ref, b: Body, within: set<Ref>, pending: set<Ref>, atomic: bool)
    requires NoDangling(h) && StacksOK(h) && Closed(h, within) && Tri(h, pending, atomic)
    requires o in h && o in pending && BodyEvolves(h[o].body, b)
    ensures var h' := h[o := h[o].(body := b)];
            NoDangling(h') && StacksOK(h') && Closed(h', within) && Tri(h', pending, atomic) && Whites(h') == Whites(h)
  {
    var h' := h[o := h[o].(body := b)];
    forall p, r | p in h' && Mentions(h'[p].body, r) ensures r in h' {
      EvolvedEdges(h[o].body, b, r);
      assert Mentions(h[p].body, r);
    }
    forall p, r | p in h' && p in within && Edge(h'[p].body, r) ensures r in within {
      EvolvedEdges(h[o].body, b, r);
      assert Edge(h[p].body, r);
    }
    forall p, r | p in h' && !h'[p].color.White? && p !in pending && Needs(h'[p].body, r, atomic)
      ensures r in h' && !h'[r].color.White? {
      assert Needs(h[p].body, r, atomic);
    }
  }

  lemma EmptyingKeepsMarkOK(h: Heap, gray: seq<Ref>, again: seq<Ref>, extra: set<Ref>, within: set<Ref>, atomic: bool,
                            o: Ref, b: Body)
    requires MarkOK(h, gray, again, extra, within, atomic) && o in h && o in extra && BodyEvolves(h[o].body, b)
    ensures MarkOK(h[o := h[o].(body := b)], gray, again, extra, within, atomic)
    ensures Whites(h[o := h[o].(body := b)]) == Whites(h)
  {
    EmptyingKeepsTri(h, o, b, within, Elems(gray) + extra, atomic);
    hide NoDangling, StacksOK, Closed, Tri, BodyEvolves;
    KindEvolves(h[o].body, b);
  }

  lemma KindEvolves(b: Body, b': Body)
    requires BodyEvolves(b, b')
    ensures b'.Str? == b.Str? && b'.Thread? == b.Thread? && Listable(b') == Listable(b)
  {}

  // A thread whose visit is owed may also sit on 'grayagain', to be visited once more later.
  lemma AgainKeepsMarkOK(h: Heap, gray: seq<Ref>, again: seq<Ref>, extra: set<Ref>, within: set<Ref>, atomic: bool,
                         o: Ref)
    requires MarkOK(h, gray, again, extra, within, atomic)
    requires o in extra && o in h && h[o].color == Gray && Listable(h[o].body) && o !in gray && o !in again
    ensures MarkOK(h, gray, [o] + again, extra, within, atomic)
  {
    assert Elems([o] + again) == Elems(again) + {o};
    assert Elems(gray) + Elems([o] + again) + extra == Elems(gray) + Elems(again) + extra;
  }
}
