// What a running program does to the heap: object fields, the commands it issues, and why each
// keeps the collector's invariant.
module GcMutator {
  import opened GcHeap
  import opened GcInvariant

  datatype Field = Meta | Env | Cell | ProtoOf | Up(i: nat) | Arr(i: nat) | Key(i: nat) | Val(i: nat) | Slot(i: nat) | Const(i: nat)

  datatype Shape = NewUdata | NewUpval | NewClosure(n: nat) | NewTable(asize: nat,
                                                    hsize: nat) | NewThread | NewProto(n: nat)

  // A program names objects by the stack slots of the running thread.
  datatype Cmd =
    | GcStep
    | FullGc
    | ResizeStrings(size: nat)
    | New(addr: Ref, dst: nat, shape: Shape)
    | NewString(addr: Ref, dst: nat, bucket: nat, fixed: bool)
    | Intern(dst: nat, bucket: nat, pos: nat)
    | Load(dst: nat, obj: nat, f: Field)
    | Store(obj: nat, f: Field, src: nat)
    | Move(dst: nat, src: nat)
    | SetTop(top: nat)
    | SetRegistry(src: nat)
    | SetTypeMeta(tag: nat, src: nat)
    | Resume(src: nat)

  const BASIC_STACK_SIZE: nat := 40
  const MINSTRTABSIZE: nat := 32
  const LUA_NUMTAGS: nat := 9

  function Nils(n: nat): (vs: seq<Value>)
    ensures |vs| == n && forall i :: 0 <= i < n ==> vs[i] == Nil
  {
    seq(n, _ => Nil)
  }

  function Fresh(shape: Shape): (b: Body)
    ensures !b.Str? && (forall r :: !Mentions(b, r)) && (b.Thread? ==> b.top <= |b.stack|)
  {
    match shape
    case NewUdata => Udata(Nil, Nil)
    case NewUpval => Upval(Nil)
    case NewClosure(n) => Closure(Nil, Nils(n))
    case NewTable(a, h) => Table(Nil, Nils(a), seq(h, _ => Entry(Nil, Nil)))
    case NewThread => Thread(Nils(BASIC_STACK_SIZE), 1)
    case NewProto(n) => Proto(Nils(n))
  }

  // What a program can read; Nil where there is nothing.
  function Read(b: Body, f: Field): Value {
    match (b, f)
    case (Udata(mt, _), Meta) => mt
    case (Udata(_, env), Env) => env
    case (Upval(v), Cell) => v
    case (Closure(p, _), ProtoOf) => p
    case (Closure(_, us), Up(i)) => if i < |us| then us[i] else Nil
    case (Table(mt, _, _), Meta) => mt
    case (Table(_, arr, _), Arr(i)) => if i < |arr| then arr[i] else Nil
    case (Table(_, _, nodes), Key(i)) => if i < |nodes| && nodes[i].val != Nil then nodes[i].key else Nil
    case (Table(_, _, nodes), Val(i)) => if i < |nodes| then nodes[i].val else Nil
    case (Thread(stack, _), Slot(i)) => if i < |stack| then stack[i] else Nil
    case (Proto(ks), Const(i)) => if i < |ks| then ks[i] else Nil
    case _ => Nil
  }

  // A write; the body unchanged where it does not apply.  A key goes into an empty entry only
  // (luaH_newkey), a value only beside a key that is in use (luaH_get does not find dead keys).
  function Write(b: Body, f: Field, v: Value): Body {
    match (b, f)
    case (Udata(_, env), Meta) => Udata(v, env)
    case (Udata(mt, _), Env) => Udata(mt, v)
    case (Upval(_), Cell) => Upval(v)
    case (Closure(_, us), ProtoOf) => Closure(v, us)
    case (Closure(p, us), Up(i)) => if i < |us| then Closure(p, us[i := v]) else b
    case (Table(_, arr, nodes), Meta) => Table(v, arr, nodes)
    case (Table(mt, arr, nodes), Arr(i)) => if i < |arr| then Table(mt, arr[i := v], nodes) else b
    case (Table(mt, arr, nodes), Key(i)) =>
      if i < |nodes| && nodes[i].val == Nil && (v.Atom? || v.Coll?) then Table(mt, arr, nodes[i := Entry(v, Nil)]) else b
    case (Table(mt, arr, nodes), Val(i)) =>
      if i < |nodes| && (nodes[i].key.Atom? || nodes[i].key.Coll?) then Table(mt, arr, nodes[i := Entry(nodes[i].key, v)]) else b
    case (Thread(stack, top), Slot(i)) => if i < |stack| then Thread(stack[i := v], top) else b
    case (Proto(ks), Const(i)) => if i < |ks| then Proto(ks[i := v]) else b
    case _ => b
  }

  // ----- what a command means to the program, colours aside -----

  function Bodies(h: Heap): map<Ref, Body> { map r | r in h :: h[r].body }

  function Reg(s: State, i: nat): Value {
    if s.running in s.heap && s.heap[s.running].body.Thread? && i < |s.heap[s.running].body.stack|
    then s.heap[s.running].body.stack[i] else Nil
  }

  function WriteReg(m: map<Ref, Body>, running: Ref, dst: nat, v: Value): map<Ref, Body> {
    if running in m then m[running := Write(m[running], Slot(dst), v)] else m
  }

  function AfterBodies(c: Cmd, s: State): map<Ref, Body> {
    var m := Bodies(s.heap);
    match c
    case New(r, dst, shape) =>
      if r in m then m else WriteReg(m[r := Fresh(shape)], s.running, dst, Coll(r))
    case NewString(r, dst, bucket, _) =>
      if r in m || bucket >= |s.strt| then m else WriteReg(m[r := Str], s.running, dst, Coll(r))
    case Intern(dst, bucket, pos) =>
      if bucket < |s.strt| && pos < |s.strt[bucket]| then WriteReg(m, s.running, dst, Coll(s.strt[bucket][pos])) else m
    case Move(dst, src) => WriteReg(m, s.running, dst, Reg(s, src))
    case Load(dst, obj, f) =>
      if Reg(s, obj).Coll? && Reg(s, obj).ref in m then WriteReg(m, s.running, dst, Read(m[Reg(s, obj).ref], f)) else m
    case Store(obj, f, src) =>
      if Reg(s, obj).Coll? && Reg(s, obj).ref in m
      then m[Reg(s, obj).ref := Write(m[Reg(s, obj).ref], f, Reg(s, src))] else m
    case SetTop(n) =>
      if s.running in m && m[s.running].Thread? && n <= |m[s.running].stack|
      then m[s.running := Thread(m[s.running].stack, n)] else m
    case _ => m
  }

  // The roots after a command.
  function AfterRoots(c: Cmd, s: State): (Value, seq<Value>, Ref) {
    match c
    case SetRegistry(src) => (Reg(s, src), s.mt, s.running)
    case SetTypeMeta(tag, src) => (s.registry, if tag < |s.mt| then s.mt[tag := Reg(s, src)] else s.mt, s.running)
    case Resume(src) =>
      (s.registry, s.mt, if Reg(s, src).Coll? && Reg(s, src).ref in s.heap && s.heap[Reg(s, src).ref].body.Thread?
                         then Reg(s, src).ref else s.running)
    case _ => (s.registry, s.mt, s.running)
  }

  lemma ReadMentions(b: Body, f: Field)
    ensures Read(b, f).Coll? ==> Mentions(b, Read(b, f).ref)
  {}

  // A write adds at most the value written.
  ghost predicate AddsAtMost(b: Body, b': Body, v: Value) {
    b'.Str? == b.Str? && b'.Thread? == b.Thread? && Listable(b') == Listable(b) &&
    (b'.Thread? ==> b.top <= |b.stack| ==> b'.top <= |b'.stack|) &&
    forall r :: Mentions(b', r) ==> Mentions(b, r) || v == Coll(r)
  }

  lemma WriteAddsAtMost(b: Body, f: Field, v: Value)
    ensures AddsAtMost(b, Write(b, f, v), v)
  {
    var b' := Write(b, f, v);
    forall r | Mentions(b', r) ensures Mentions(b, r) || v == Coll(r) {
      if b.Table? && (f.Key? || f.Val?) && b' != b && b.metatable != Coll(r) && Coll(r) !in b.arr {
        var i :| 0 <= i < |b'.nodes| && (b'.nodes[i].key == Coll(r) || b'.nodes[i].val == Coll(r));
        assert i == f.i || b.nodes[i] == b'.nodes[i];
      }
    }
  }

  // ----- replacing one body -----

  function SetBody(h: Heap, o: Ref, b: Body): Heap
    requires o in h
  {
    h[o := h[o].(body := b)]
  }

  // Outside the marking phase nothing else is needed; the colours do not change.
  lemma SetBodyKeepsInv(s: State, o: Ref, b: Body, v: Value)
    requires Inv(s) && Alive(s.heap, s.currentwhite, o) && AliveValue(s.heap, s.currentwhite, v)
    requires AddsAtMost(s.heap[o].body, b, v)
    ensures var s' := s.(heap := SetBody(s.heap, o, b));
            InvBase(s') && (s.phase != Propagate ==> PhaseOK(s'))
  {
    hide MarkOK, Mentions, AliveClosed, ListsOK, IsDead, PhaseOK, StacksOK, FixedAreStrings;
    SetBodyKeepsAlive(s.heap, s.currentwhite, o, b, v);
    SetBodyKeepsLists(s, o, b);
    if s.phase != Propagate { SetBodyKeepsPhase(s, o, b); }
    forall v | v in s.mt ensures AliveValue(SetBody(s.heap, o, b), s.currentwhite, v) {
      assert AliveValue(s.heap, s.currentwhite, v);
    }
  }

  lemma SetBodyKeepsAlive(h: Heap, currentwhite: bool, o: Ref, b: Body, v: Value)
    requires AliveClosed(h, currentwhite) && Alive(h, currentwhite, o) && AliveValue(h, currentwhite, v)
    requires AddsAtMost(h[o].body, b, v)
    ensures AliveClosed(SetBody(h, o, b), currentwhite)
    ensures forall r :: Alive(SetBody(h, o, b), currentwhite, r) <==> Alive(h, currentwhite, r)
  {
    var h' := SetBody(h, o, b);
    forall p, r | p in h' && !IsDead(h'[p], currentwhite) && Mentions(h'[p].body, r) ensures Alive(h', currentwhite, r) {
      assert Mentions(h[p].body, r) || (p == o && v == Coll(r));
      assert Alive(h, currentwhite, r);
    }
  }

  lemma SetBodyKeepsPhase(s: State, o: Ref, b: Body)
    requires PhaseOK(s) && s.phase != Propagate && o in s.heap && b.Str? == s.heap[o].body.Str?
    ensures PhaseOK(s.(heap := SetBody(s.heap, o, b)))
  {
    hide MarkOK;
  }

  lemma SetBodyKeepsLists(s: State, o: Ref, b: Body)
    requires ListsOK(s.heap, s.allgc, s.strt, s.mainthread) && FixedAreStrings(s.heap) && StacksOK(s.heap) &&
             o in s.heap
    requires b.Str? == s.heap[o].body.Str? && b.Thread? == s.heap[o].body.Thread?
    requires b.Thread? ==> s.heap[o].body.top <= |s.heap[o].body.stack| ==> b.top <= |b.stack|
    ensures ListsOK(SetBody(s.heap, o, b), s.allgc, s.strt, s.mainthread)
    ensures FixedAreStrings(SetBody(s.heap, o, b)) && StacksOK(SetBody(s.heap, o, b))
  {}

  // While marking, a black object whose body was replaced owes a visit.
  lemma SetBodyOwesVisit(h: Heap, gray: seq<Ref>, again: seq<Ref>, extra: set<Ref>, o: Ref, b: Body, v: Value)
    requires MarkOK(h, gray, again, extra, h.Keys, false) && o in h && h[o].color == Black
    requires AddsAtMost(h[o].body, b, v) && (v.Coll? ==> v.ref in h)
    ensures MarkOK(SetBody(h, o, b), gray, again, extra + {o}, h.Keys, false) && o !in gray && o !in again
  {
    hide NoDangling, StacksOK, Closed, Tri, Mentions, Distinct, AddsAtMost;
    SetBodyKeepsTri(h, Elems(gray) + extra, o, b, v);
    SameKind(h[o].body, b, v);
    assert Elems(gray) + (extra + {o}) == Elems(gray) + extra + {o};
  }

  lemma SameKind(b: Body, b': Body, v: Value)
    requires AddsAtMost(b, b', v)
    ensures b'.Str? == b.Str? && b'.Thread? == b.Thread? && Listable(b') == Listable(b)
  {}

  lemma SetBodyKeepsTri(h: Heap, pending: set<Ref>, o: Ref, b: Body, v: Value)
    requires NoDangling(h) && StacksOK(h) && Tri(h, pending, false) && o in h
    requires AddsAtMost(h[o].body, b, v) && (v.Coll? ==> v.ref in h)
    ensures var h' := SetBody(h, o, b);
            NoDangling(h') && StacksOK(h') && Closed(h', h.Keys) && Tri(h', pending + {o}, false)
  {
    var h' := SetBody(h, o, b);
    forall p, r | p in h' && Mentions(h'[p].body, r) ensures r in h' {
      assert Mentions(h[p].body, r) || v == Coll(r);
    }
    forall p, r | p in h' && p in h.Keys && Edge(h'[p].body, r) ensures r in h.Keys {
      EdgeIsNeeded(h'[p].body, r);
    }
    forall p, r | p in h' && !h'[p].color.White? && p !in pending + {o} && Needs(h'[p].body, r, false)
      ensures r in h' && !h'[r].color.White? {
      assert Needs(h[p].body, r, false);
    }
  }

  // If the object is not black, or the value is marked already, nothing is owed.
  lemma SetBodyOwesNothing(h: Heap, gray: seq<Ref>, again: seq<Ref>, o: Ref, b: Body, v: Value)
    requires MarkOK(h, gray, again, Elems(again), h.Keys, false) && o in h && !h[o].body.Str?
    requires AddsAtMost(h[o].body, b, v) && (v.Coll? ==> v.ref in h)
    requires h[o].color != Black || (v.Coll? ==> !h[v.ref].color.White?)
    ensures MarkOK(SetBody(h, o, b), gray, again, Elems(again), h.Keys, false)
  {
    hide NoDangling, StacksOK, Closed, Tri, Mentions, Distinct, AddsAtMost;
    SetBodyKeepsTri(h, Elems(gray) + Elems(again), o, b, v);
    SameKind(h[o].body, b, v);
    SetBodyOwesNoVisit(h, Elems(gray) + Elems(again), o, b, v);
  }

  lemma SetBodyOwesNoVisit(h: Heap, pending: set<Ref>, o: Ref, b: Body, v: Value)
    requires Tri(h, pending, false) && o in h && !h[o].body.Str? && GraysListed(h, pending)
    requires AddsAtMost(h[o].body, b, v) && (v.Coll? ==> v.ref in h)
    requires h[o].color != Black || (v.Coll? ==> !h[v.ref].color.White?)
    requires Tri(SetBody(h, o, b), pending + {o}, false) && (forall r :: r in pending && r in h ==> h[r].color == Gray)
    ensures Tri(SetBody(h, o, b), pending, false)
  {
    var h' := SetBody(h, o, b);
    assert h[o].color == Gray ==> o in pending;
    forall r | h[o].color == Black && Needs(b, r, false) ensures r in h' && !h'[r].color.White? {
      NonThreadNeeds(h[o].body, b, v, r);
      BlackNeedsMarked(h, pending, o, r, v);
    }
    forall p, r | p in h' && !h'[p].color.White? && p !in pending && Needs(h'[p].body, r, false)
      ensures r in h' && !h'[r].color.White? {
      if p != o { assert p !in pending + {o}; }
    }
  }

  lemma NonThreadNeeds(b: Body, b': Body, v: Value, r: Ref)
    requires AddsAtMost(b, b', v) && !b.Thread? && Needs(b', r, false)
    ensures Needs(b, r, false) || v == Coll(r)
  {}

  lemma BlackNeedsMarked(h: Heap, pending: set<Ref>, o: Ref, r: Ref, v: Value)
    requires Tri(h, pending, false) && o in h && h[o].color == Black
    requires (v.Coll? ==> v.ref in h && !h[v.ref].color.White?)
    requires o !in pending && (Needs(h[o].body, r, false) || v == Coll(r))
    ensures r in h && !h[r].color.White?
  {}

  // ----- allocation -----

  function AddObj(h: Heap, r: Ref, o: Obj): Heap { h[r := o] }

  lemma NewKeepsAlive(h: Heap, currentwhite: bool, r: Ref, o: Obj)
    requires AliveClosed(h, currentwhite) && StacksOK(h) && FixedAreStrings(h) && r !in h
    requires (forall q :: !Mentions(o.body, q)) && (o.body.Thread? ==> o.body.top <= |o.body.stack|) &&
             (o.fixed ==> o.body.Str?)
    ensures AliveClosed(AddObj(h, r, o), currentwhite) && StacksOK(AddObj(h, r, o)) && FixedAreStrings(AddObj(h, r, o))
    ensures forall q :: Alive(h, currentwhite, q) ==> Alive(AddObj(h, r, o), currentwhite, q)
  {
    var h' := AddObj(h, r, o);
    forall p, q | p in h' && !IsDead(h'[p], currentwhite) && Mentions(h'[p].body, q) ensures Alive(h', currentwhite, q) {
      assert p in h && Mentions(h[p].body, q);
      assert Alive(h, currentwhite, q);
    }
  }

  lemma NewKeepsMarkOK(h: Heap, gray: seq<Ref>, again: seq<Ref>, r: Ref, o: Obj)
    requires MarkOK(h, gray, again, Elems(again), h.Keys, false) && r !in h && o.color.White?
    requires (forall q :: !Mentions(o.body, q)) && (o.body.Thread? ==> o.body.top <= |o.body.stack|)
    ensures MarkOK(AddObj(h, r, o), gray, again, Elems(again), AddObj(h, r, o).Keys, false)
  {
    var h' := AddObj(h, r, o);
    NewKeepsTri(h, Elems(gray) + Elems(again), r, o);
    hide NoDangling, StacksOK, Closed, Tri, Mentions;
  }

  lemma NewKeepsTri(h: Heap, pending: set<Ref>, r: Ref, o: Obj)
    requires NoDangling(h) && StacksOK(h) && Tri(h, pending, false) && r !in h && o.color.White?
    requires (forall q :: !Mentions(o.body, q)) && (o.body.Thread? ==> o.body.top <= |o.body.stack|)
    ensures var h' := AddObj(h, r, o); NoDangling(h') && StacksOK(h') && Closed(h', h'.Keys) && Tri(h', pending, false)
  {
    var h' := AddObj(h, r, o);
    forall p, q | p in h' && Mentions(h'[p].body, q) ensures q in h' { assert p in h && Mentions(h[p].body, q); }
    forall p, q | p in h' && Edge(h'[p].body, q) ensures q in h'.Keys { EdgeIsNeeded(h'[p].body, q); }
    forall p, q | p in h' && !h'[p].color.White? && p !in pending && Needs(h'[p].body, q, false)
      ensures q in h' && !h'[q].color.White? {
      assert p in h && Needs(h[p].body, q, false);
    }
  }

  // luaC_newobj on 'allgc'; 'sweepgc' keeps pointing at the same cell unless it is the list head.
  lemma NewObjKeepsInv(s: State, s': State, r: Ref, b: Body)
    requires Inv(s) && r !in s.heap && !b.Str? && (forall q :: !Mentions(b, q)) && (b.Thread? ==> b.top <= |b.stack|)
    requires s' == s.(heap := AddObj(s.heap, r, Obj(b, White(s.currentwhite), false)), allgc := [r] + s.allgc,
                      sweepgc := if s.phase == Sweep && s.sweepgc > 0 then s.sweepgc + 1 else s.sweepgc)
    ensures Inv(s')
  {
    var o := Obj(b, White(s.currentwhite), false);
    hide Mentions, MarkOK, PhaseOK, AliveClosed, StacksOK, FixedAreStrings, ListsOK, IsDead;
    NewKeepsAlive(s.heap, s.currentwhite, r, o);
    NewObjKeepsLists(s, r, o);
    NewObjKeepsPhase(s, s', r, b);
    forall v | v in s.mt ensures AliveValue(s'.heap, s.currentwhite, v) { assert AliveValue(s.heap, s.currentwhite, v); }
  }

  lemma NewObjKeepsLists(s: State, r: Ref, o: Obj)
    requires ListsOK(s.heap, s.allgc, s.strt, s.mainthread) && r !in s.heap && !o.body.Str?
    ensures ListsOK(AddObj(s.heap, r, o), [r] + s.allgc, s.strt, s.mainthread)
  {
    var allgc' := [r] + s.allgc;
    forall i, j | 0 <= i < j < |allgc'| ensures allgc'[i] != allgc'[j] {
      assert allgc'[j] == s.allgc[j - 1];
      assert s.allgc[j - 1] in s.heap;
    }
  }

  lemma NewObjKeepsPhase(s: State, s': State, r: Ref, b: Body)
    requires PhaseOK(s) && ListsOK(s.heap, s.allgc, s.strt, s.mainthread) && r !in s.heap && !b.Str?
    requires (forall q :: !Mentions(b, q)) && (b.Thread? ==> b.top <= |b.stack|)
    requires s' == s.(heap := AddObj(s.heap, r, Obj(b, White(s.currentwhite), false)), allgc := [r] + s.allgc,
                      sweepgc := if s.phase == Sweep && s.sweepgc > 0 then s.sweepgc + 1 else s.sweepgc)
    ensures PhaseOK(s')
  {
    hide MarkOK, Mentions;
    if s.phase == Propagate {
      NewKeepsMarkOK(s.heap, s.gray, s.grayagain, r, Obj(b, White(s.currentwhite), false));
    }
    if s.phase == Sweep {
      forall i | 0 <= i < s'.sweepgc && s'.allgc[i] in s'.heap ensures s'.heap[s'.allgc[i]].color == White(s.currentwhite) {
        if i > 0 { assert s'.allgc[i] == s.allgc[i - 1]; }
      }
    }
  }

  // newlstr: a new string at the front of its bucket.
  lemma NewStringKeepsInv(s: State, s': State, r: Ref, bucket: nat, fixed: bool)
    requires Inv(s) && r !in s.heap && bucket < |s.strt|
    requires s' == s.(heap := AddObj(s.heap, r, Obj(Str, White(s.currentwhite), fixed)),
                      strt := s.strt[bucket := [r] + s.strt[bucket]])
    ensures Inv(s')
  {
    var o := Obj(Str, White(s.currentwhite), fixed);
    hide MarkOK, PhaseOK, AliveClosed, StacksOK, FixedAreStrings, ListsOK, IsDead;
    NewKeepsAlive(s.heap, s.currentwhite, r, o);
    NewStringKeepsLists(s, s', r, bucket, o);
    NewStringKeepsPhase(s, s', r, bucket, o);
    forall v | v in s.mt ensures AliveValue(s'.heap, s.currentwhite, v) { assert AliveValue(s.heap, s.currentwhite, v); }
  }

  lemma NewStringKeepsLists(s: State, s': State, r: Ref, bucket: nat, o: Obj)
    requires ListsOK(s.heap, s.allgc, s.strt, s.mainthread) && r !in s.heap && bucket < |s.strt| && o.body.Str?
    requires s' == s.(heap := AddObj(s.heap, r, o), strt := s.strt[bucket := [r] + s.strt[bucket]])
    ensures ListsOK(s'.heap, s'.allgc, s'.strt, s'.mainthread)
  {
    hide Distinct;
    BucketGrows(s.strt, s'.strt, s.heap, bucket, r);
    forall q | q in s'.heap ensures q == s.mainthread || q in s.allgc || (s'.heap[q].body.Str? && InStrt(s'.strt, q)) {
      if q in s.heap && s.heap[q].body.Str? && InStrt(s.strt, q) {
        var b :| 0 <= b < |s.strt| && q in s.strt[b];
        assert q in s'.strt[b];
      } else if q == r {
        assert r in s'.strt[bucket];
      }
    }
  }

  lemma BucketGrows(strt: seq<seq<Ref>>, strt': seq<seq<Ref>>, h: Heap, bucket: nat, r: Ref)
    requires bucket < |strt| && strt' == strt[bucket := [r] + strt[bucket]] && r !in h
    requires forall b, q :: 0 <= b < |strt| && q in strt[b] ==> q in h
    requires forall b :: 0 <= b < |strt| ==> Distinct(strt[b])
    ensures forall b, q :: 0 <= b < |strt'| ==> (q in strt'[b] <==> q in strt[b] || (q == r && b == bucket))
    ensures forall b :: 0 <= b < |strt'| ==> Distinct(strt'[b])
  {
    forall b | 0 <= b < |strt'| ensures Distinct(strt'[b]) {
      if b == bucket { FrontDistinct(strt[b], r); }
    }
  }

  lemma FrontDistinct(l: seq<Ref>, r: Ref)
    requires Distinct(l) && r !in l
    ensures Distinct([r] + l)
  {
    var l' := [r] + l;
    forall i, j | 0 <= i < j < |l'| ensures l'[i] != l'[j] { assert l'[j] == l[j - 1] && l[j - 1] in l; }
  }

  lemma NewStringKeepsPhase(s: State, s': State, r: Ref, bucket: nat, o: Obj)
    requires PhaseOK(s) && ListsOK(s.heap, s.allgc, s.strt, s.mainthread) && r !in s.heap && bucket < |s.strt|
    requires o.body.Str? && o.color == White(s.currentwhite)
    requires s' == s.(heap := AddObj(s.heap, r, o), strt := s.strt[bucket := [r] + s.strt[bucket]])
    ensures PhaseOK(s')
  {
    hide MarkOK;
    if s.phase == Propagate { NewKeepsMarkOK(s.heap, s.gray, s.grayagain, r, o); }
    if s.phase == SweepString {
      forall b, q | 0 <= b < s.sweepstrgc && q in s'.strt[b] && q in s'.heap ensures s'.heap[q].color == White(s.currentwhite) {
        assert q == r || q in s.strt[b];
      }
    }
  }

  // luaS_newlstr finding a dead string: it is given the current white again.
  lemma ResurrectKeepsInv(s: State, r: Ref)
    requires Inv(s) && r in s.heap && s.heap[r].body.Str? && IsDead(s.heap[r], s.currentwhite)
    ensures Inv(s.(heap := Recolor(s.heap, r, White(s.currentwhite))))
    ensures Alive(Recolor(s.heap, r, White(s.currentwhite)), s.currentwhite, r)
  {
    var h' := Recolor(s.heap, r, White(s.currentwhite));
    hide MarkOK;
    forall q | Alive(s.heap, s.currentwhite, q) ensures Alive(h', s.currentwhite, q) {}
    forall p, q | p in h' && !IsDead(h'[p], s.currentwhite) && Mentions(h'[p].body, q) ensures Alive(h', s.currentwhite, q) {
      assert p != r && Mentions(s.heap[p].body, q);
      assert Alive(s.heap, s.currentwhite, q);
    }
    forall v | v in s.mt ensures AliveValue(h', s.currentwhite, v) { assert AliveValue(s.heap, s.currentwhite, v); }
  }

  // Roots are changed without any barrier.
  lemma RootsKeepInv(s: State, s': State)
    requires Inv(s) && s' == s.(registry := s'.registry, mt := s'.mt, running := s'.running)
    requires AliveValue(s.heap, s.currentwhite, s'.registry)
    requires forall v :: v in s'.mt ==> v in s.mt || AliveValue(s.heap, s.currentwhite, v)
    requires Alive(s.heap, s.currentwhite, s'.running) && s.heap[s'.running].body.Thread?
    ensures Inv(s')
  {
    hide MarkOK;
  }

  // luaC_fullgc from the marking phase: sweeping before the white has changed frees nothing.
  lemma AbandonMarking(s: State)
    requires Inv(s) && s.phase == Propagate
    ensures Inv(s.(phase := SweepString, sweepstrgc := 0))
  {
    hide MarkOK;
  }

  // ----- barriers -----

  lemma RecolorKeepsInvBase(s: State, o: Ref, c: Color)
    requires InvBase(s) && Alive(s.heap, s.currentwhite, o) && c != White(!s.currentwhite)
    ensures InvBase(s.(heap := Recolor(s.heap, o, c)))
  {
    hide ListsOK, AliveClosed, FixedAreStrings, StacksOK;
    var h' := Recolor(s.heap, o, c);
    RecolorKeepsLists(s, o, c);
    RecolorKeepsAlive(s, o, c);
    hide Recolor;
    forall v | v in s.mt ensures AliveValue(h', s.currentwhite, v) { assert AliveValue(s.heap, s.currentwhite, v); }
  }

  lemma RecolorKeepsLists(s: State, o: Ref, c: Color)
    requires o in s.heap && ListsOK(s.heap, s.allgc, s.strt, s.mainthread) && FixedAreStrings(s.heap) &&
             StacksOK(s.heap)
    ensures var h' := Recolor(s.heap, o, c);
            ListsOK(h', s.allgc, s.strt, s.mainthread) && FixedAreStrings(h') && StacksOK(h') &&
            h'.Keys == s.heap.Keys && forall r :: r in s.heap ==> h'[r].body == s.heap[r].body
  {
    hide Distinct;
  }

  lemma RecolorKeepsAlive(s: State, o: Ref, c: Color)
    requires AliveClosed(s.heap, s.currentwhite) && Alive(s.heap, s.currentwhite, o) && c != White(!s.currentwhite)
    ensures var h' := Recolor(s.heap, o, c);
            AliveClosed(h', s.currentwhite) && forall q :: Alive(h', s.currentwhite, q) <==> Alive(s.heap, s.currentwhite, q)
  {
    var h' := Recolor(s.heap, o, c);
    forall q ensures Alive(h', s.currentwhite, q) <==> Alive(s.heap, s.currentwhite, q) {}
    forall p, q | p in h' && !IsDead(h'[p], s.currentwhite) && Mentions(h'[p].body, q) ensures Alive(h', s.currentwhite, q) {
      assert Mentions(s.heap[p].body, q);
      assert Alive(s.heap, s.currentwhite, q);
    }
  }

  // In a sweep phase a black object is one not swept yet, so its colour is free.
  lemma SweepRecolorKeepsInv(s: State, o: Ref, c: Color)
    requires Inv(s) && s.phase != Propagate && o in s.heap && s.heap[o].color == Black && c != White(!s.currentwhite)
    ensures Inv(s.(heap := Recolor(s.heap, o, c)))
  {
    hide MarkOK;
    RecolorKeepsInvBase(s, o, c);
    hide InvBase;
  }

  // The backward barrier while marking: the black table is gray again and on 'grayagain'.
  lemma BarrierBackMarkOK(h: Heap, gray: seq<Ref>, again: seq<Ref>, o: Ref)
    requires MarkOK(h, gray, again, Elems(again) + {o}, h.Keys, false) && o in h && h[o].color == Black &&
             Listable(h[o].body)
    requires o !in gray && o !in again
    ensures var h' := Recolor(h, o, Gray); MarkOK(h', gray, [o] + again, Elems([o] + again), h'.Keys, false)
  {
    var extra := Elems(again) + {o};
    assert Elems([o] + again) == extra;
    RecolorKeepsTri(h, o, Gray, h.Keys, Elems(gray) + extra, false);
    hide NoDangling, StacksOK, Closed, Tri;
    assert Recolor(h, o, Gray).Keys == h.Keys;
  }

  // The forward barrier while marking: the black object's visit is done again.
  lemma BarrierMarkOK(h: Heap, gray: seq<Ref>, again: seq<Ref>, o: Ref)
    requires MarkOK(h, gray, again, Elems(again) + {o}, h.Keys, false) && o in h && h[o].color == Black
    requires forall r :: Needs(h[o].body, r, false) ==> r in h && !h[r].color.White?
    ensures MarkOK(h, gray, again, Elems(again), h.Keys, false)
  {
    VisitDone(h, gray, again, Elems(again), h.Keys, false, o);
  }

  // What a black object needs is marked, except perhaps the value just stored.
  lemma BlackNeeds(h: Heap, gray: seq<Ref>, again: seq<Ref>, o: Ref, b: Body, v: Value)
    requires MarkOK(h, gray, again, Elems(again), h.Keys, false) && o in h && h[o].color == Black
    requires AddsAtMost(h[o].body, b, v)
    ensures forall r :: Needs(b, r, false) ==> v == Coll(r) || (r in h && !h[r].color.White?)
  {
    assert o !in Elems(gray) + Elems(again);
    forall r | Needs(b, r, false) ensures v == Coll(r) || (r in h && !h[r].color.White?) {
      assert !h[o].body.Thread?;
      NonThreadNeeds(h[o].body, b, v, r);
    }
  }
}
