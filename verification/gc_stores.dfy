// Whole runs seen by the program: what was stored is loaded again, whatever the program and the
// collector do in between.
module GcStores {
  import opened GcHeap
  import opened GcInvariant
  import opened GcMutator
  import opened GcCollector
  import opened GcFields

  // The command leaves register 'obj' and all fields f alone.
  predicate Leaves(c: Cmd, obj: nat, f: Field) {
    match c
    case GcStep => true
    case FullGc => true
    case ResizeStrings(_) => true
    case New(_, dst, _) => dst != obj
    case NewString(_, dst, _, _) => dst != obj
    case Intern(dst, _, _) => dst != obj
    case Load(dst, _, _) => dst != obj
    case Move(dst, _) => dst != obj
    case Store(_, g, _) => g != f && !g.Slot? && (f.Key? ==> g != Val(f.i)) && (f.Val? ==> g != Key(f.i))
    case SetTop(n) => n > obj
    case SetRegistry(_) => true
    case SetTypeMeta(_, _) => true
    case Resume(_) => false
  }

  lemma HoldsLive(s: State, obj: nat, o: Ref, f: Field, v: Value, n: nat)
    requires Holds(s, obj, o, f, v, n)
    ensures Live(s, o) && (v.Coll? ==> Live(s, v.ref))
  {
    RunningIsLive(s);
    ReadIsReachable(s, s.running, Slot(obj));
    if v.Coll? { ReadIsReachable(s, o, f); }
  }

  lemma CollectedHolds(s: State, s': State, obj: nat, o: Ref, f: Field, v: Value, n: nat)
    requires Inv(s) && Inv(s') && Spares(s, s') && Holds(s, obj, o, f, v, n)
    ensures Holds(s', obj, o, f, v, n)
  {
    HoldsLive(s, obj, o, f, v, n);
    RunningIsLive(s);
    LiveIsThere(s');
    RunningIsThread(s');
    hide Inv, BodyEvolves, Read, Live;
    assert o in s'.heap && s'.running in s'.heap;
    ReadsEvolved(s.heap[o].body, s'.heap[o].body, f);
    StackEvolved(s.heap[s.running].body, s'.heap[s.running].body, obj);
  }

  lemma StackEvolved(b: Body, b': Body, i: nat)
    requires BodyEvolves(b, b') && b.Thread? && b'.Thread? && i < b.top && i < |b.stack|
    ensures |b'.stack| == |b.stack| && b'.top == b.top && b'.stack[i] == b.stack[i]
  {}

  lemma RegHolds(s: State, s': State, obj: nat, o: Ref, f: Field, v: Value, n: nat, dst: nat)
    requires Holds(s, obj, o, f, v, n) && OnlyReg(s, s', dst) && dst != obj
    ensures Holds(s', obj, o, f, v, n)
  {
    assert Reg(s', obj) == Reg(s, obj);
    if o == s.running { ThreadReads(s.heap[o].body, f); ThreadReads(s'.heap[o].body, f); }
  }

  lemma ThreadReads(b: Body, f: Field)
    requires b.Thread? && !f.Slot?
    ensures Read(b, f) == Nil
  {}

  lemma SameHolds(s: State, s': State, obj: nat, o: Ref, f: Field, v: Value, n: nat)
    requires Holds(s, obj, o, f, v, n) && s'.running == s.running && Bodies(s'.heap) == Bodies(s.heap)
    ensures Holds(s', obj, o, f, v, n)
  {
    BodiesAt(s.heap, o);
    BodiesAt(s'.heap, o);
    BodiesAt(s.heap, s.running);
    BodiesAt(s'.heap, s.running);
  }

  lemma StoredHolds(s: State, s': State, obj: nat, o: Ref, f: Field, v: Value, n: nat, c: Cmd)
    requires Inv(s) && Holds(s, obj, o, f, v, n) && c.Store? && Leaves(c, obj, f) && Stepped(c, s, s')
    ensures Holds(s', obj, o, f, v, n)
  {
    hide Inv, Read, Write, Accepts, HasField;
    if Reg(s, c.obj).Coll? && Reg(s, c.obj).ref in s.heap {
      StoreMeans(s, s', c.obj, c.f, c.src);
      hide Stepped;
      var p := Reg(s, c.obj).ref;
      if p == s.running { StackKept(s, s', c.obj, c.f, c.src); }
      if s.heap[p].body.Thread? { TopKept(s, s', c.obj, c.f, c.src); }
    } else {
      SameHolds(s, s', obj, o, f, v, n);
    }
  }

  // A store into a thread's other fields changes nothing: it has none.
  lemma StackKept(s: State, s': State, obj: nat, f: Field, src: nat)
    requires HasThread(s) && Stepped(Store(obj, f, src), s, s') && Reg(s, obj) == Coll(s.running) && !f.Slot?
    ensures s.running in s'.heap && s'.heap[s.running].body == s.heap[s.running].body
  {
    BodiesAt(s.heap, s.running);
    BodiesAt(s'.heap, s.running);
  }

  lemma TopHolds(s: State, s': State, obj: nat, o: Ref, f: Field, v: Value, n: nat, top: nat)
    requires Holds(s, obj, o, f, v, n) && top > obj && Stepped(SetTop(top), s, s')
    ensures Holds(s', obj, o, f, v, n)
  {
    SetTopMeans(s, s', top);
    hide Stepped;
    assert Reg(s', obj) == Reg(s, obj);
    if o == s.running { ThreadReads(s.heap[o].body, f); ThreadReads(s'.heap[o].body, f); }
  }

  // No command that leaves the register and the field alone makes the object hold anything else.
  lemma LeftHolds(s: State, s': State, obj: nat, o: Ref, f: Field, v: Value, n: nat, c: Cmd)
    requires Inv(s) && Inv(s') && Stepped(c, s, s') && Leaves(c, obj, f) && Holds(s, obj, o, f, v, n)
    ensures Holds(s', obj, o, f, v, n)
  {
    hide Inv, Holds, Read, Write;
    HasRunning(s, obj, o, f, v, n);
    match c
    case GcStep => CollectedHolds(s, s', obj, o, f, v, n);
    case FullGc => CollectedHolds(s, s', obj, o, f, v, n);
    case ResizeStrings(_) => CollectedHolds(s, s', obj, o, f, v, n);
    case New(r, dst, shape) =>
      if r in s.heap { SameHolds(s, s', obj, o, f, v, n); } else { NewMeans(s, s', r, dst, shape); RegHolds(s, s', obj, o, f, v, n, dst); }
    case NewString(r, dst, b, fixed) =>
      if r in s.heap || b >= |s.strt| { SameHolds(s, s', obj, o, f, v, n); }
      else { NewStringMeans(s, s', r, dst, b, fixed); RegHolds(s, s', obj, o, f, v, n, dst); }
    case Intern(dst, b, pos) =>
      if b < |s.strt| && pos < |s.strt[b]| { InternMeans(s, s', dst, b, pos); RegHolds(s, s', obj, o, f, v, n, dst); }
      else { SameHolds(s, s', obj, o, f, v, n); }
    case Load(dst, p, g) =>
      if Reg(s, p).Coll? && Reg(s, p).ref in s.heap { LoadMeans(s, s', dst, p, g); RegHolds(s, s', obj, o, f, v, n, dst); }
      else { SameHolds(s, s', obj, o, f, v, n); }
    case Move(dst, src) => MoveMeans(s, s', dst, src); RegHolds(s, s', obj, o, f, v, n, dst);
    case Store(_, _, _) => StoredHolds(s, s', obj, o, f, v, n, c);
    case SetTop(top) => TopHolds(s, s', obj, o, f, v, n, top);
    case SetRegistry(_) => SameHolds(s, s', obj, o, f, v, n);
    case SetTypeMeta(_, _) => SameHolds(s, s', obj, o, f, v, n);
  }

  lemma HasRunning(s: State, obj: nat, o: Ref, f: Field, v: Value, n: nat)
    requires Holds(s, obj, o, f, v, n)
    ensures HasThread(s)
  {}

  lemma StoredNow(s: State, s': State, obj: nat, f: Field, src: nat)
    requires IsReg(s, obj) && obj < s.heap[s.running].body.top && Reg(s, obj).Coll? && Reg(s, obj).ref in s.heap
    requires Accepts(s.heap[Reg(s, obj).ref].body, f, Reg(s, src)) && !f.Key?
    requires f.Slot? ==> Reg(s, obj) != Coll(s.running) && f.i < s.heap[Reg(s, obj).ref].body.top
    requires Stepped(Store(obj, f, src), s, s')
    ensures Holds(s', obj, Reg(s, obj).ref, f, Reg(s, src), |s.heap[s.running].body.stack|)
  {
    var o := Reg(s, obj).ref;
    StoreMeans(s, s', obj, f, src);
    if o == s.running { StackKept(s, s', obj, f, src); }
    if f.Slot? { TopKept(s, s', obj, f, src); }
  }

  lemma TopKept(s: State, s': State, obj: nat, f: Field, src: nat)
    requires HasThread(s) && Stepped(Store(obj, f, src), s, s') && Reg(s, obj).Coll? && Reg(s, obj).ref in s.heap
    requires s.heap[Reg(s, obj).ref].body.Thread?
    ensures var o := Reg(s, obj).ref; o in s'.heap && s'.heap[o].body.Thread? && s'.heap[o].body.top == s.heap[o].body.top
  {
    BodiesAt(s.heap, Reg(s, obj).ref);
    BodiesAt(s'.heap, Reg(s, obj).ref);
  }

  lemma Loaded(s: State, s': State, obj: nat, o: Ref, f: Field, v: Value, n: nat, dst: nat)
    requires Inv(s) && Inv(s') && Holds(s, obj, o, f, v, n) && Stepped(Load(dst, obj, f), s, s') && dst < n
    ensures Reg(s', dst) == v && (v.Coll? ==> Live(s, v.ref))
  {
    LoadMeans(s, s', dst, obj, f);
    HoldsLive(s, obj, o, f, v, n);
  }

  // What was stored into a field is loaded again, and if it is an object it has not been freed: after
  // any commands that leave the object's register and such fields alone, collections among them.
  method StoreThenLoad(g: GlobalState, obj: nat, f: Field, src: nat, program: seq<Cmd>, dst: nat)
    requires g.Valid() && !f.Key? && forall i :: 0 <= i < |program| ==> Leaves(program[i], obj, f)
    requires var s := g.Snap(); IsReg(s, obj) && obj < s.heap[s.running].body.top && IsReg(s, dst)
    requires var s := g.Snap(); Reg(s, obj).Coll? && Reg(s, obj).ref in s.heap && Accepts(s.heap[Reg(s, obj).ref].body, f, Reg(s, src))
    requires var s := g.Snap(); f.Slot? ==> Reg(s, obj) != Coll(s.running) && f.i < s.heap[Reg(s, obj).ref].body.top
    modifies g
    ensures g.Valid() && Reg(g.Snap(), dst) == old(Reg(g.Snap(), src))
    ensures old(Reg(g.Snap(), src)).Coll? ==> old(Reg(g.Snap(), src)).ref in g.heap
  {
    hide Inv, Holds, Stepped, Leaves, Accepts, Read;
    ghost var s := g.Snap();
    ghost var o, v, n := Reg(s, obj).ref, Reg(s, src), |s.heap[s.running].body.stack|;
    g.Execute(Store(obj, f, src));
    StoredNow(s, g.Snap(), obj, f, src);
    var i := 0;
    while i < |program|
      invariant i <= |program| && g.Valid() && Holds(g.Snap(), obj, o, f, v, n)
    {
      ghost var was := g.Snap();
      g.Execute(program[i]);
      LeftHolds(was, g.Snap(), obj, o, f, v, n, program[i]);
      i := i + 1;
    }
    ghost var last := g.Snap();
    g.Execute(Load(dst, obj, f));
    Loaded(last, g.Snap(), obj, o, f, v, n, dst);
  }

  // A new entry of a table, key first: both are loaded again.
  lemma EntryStored(s: State, s1: State, s2: State, obj: nat, i: nat, key: nat, src: nat)
    requires IsReg(s, obj) && obj < s.heap[s.running].body.top && Reg(s, obj).Coll? && Reg(s, obj).ref in s.heap
    requires Accepts(s.heap[Reg(s, obj).ref].body, Key(i), Reg(s, key)) && Reg(s, src) != Nil
    requires Stepped(Store(obj, Key(i), key), s, s1) && Stepped(Store(obj, Val(i), src), s1, s2)
    ensures var o, n := Reg(s, obj).ref, |s.heap[s.running].body.stack|;
            Holds(s2, obj, o, Key(i), Reg(s, key), n) && Holds(s2, obj, o, Val(i), Reg(s, src), n)
  {
    var o := Reg(s, obj).ref;
    StoreMeans(s, s1, obj, Key(i), key);
    SameStack(s, s1, o);
    StoreMeans(s1, s2, obj, Val(i), src);
    SameStack(s1, s2, o);
    BodiesAt(s1.heap, o);
    BodiesAt(s2.heap, o);
  }

  lemma SameStack(s: State, s': State, o: Ref)
    requires HasThread(s) && s'.running == s.running && s'.heap.Keys == s.heap.Keys && o != s.running
    requires forall r :: r in s.heap && r != o ==> s'.heap[r].body == s.heap[r].body
    ensures HasThread(s') && s'.heap[s'.running].body == s.heap[s.running].body && forall i: nat {:trigger Reg(s', i)} :: Reg(s', i) == Reg(s, i)
  {}

  method StoreEntryThenLoad(g: GlobalState, obj: nat, i: nat, key: nat, src: nat, program: seq<Cmd>, dst: nat, dstkey: nat)
    requires g.Valid() && forall j :: 0 <= j < |program| ==> Leaves(program[j], obj, Key(i)) && Leaves(program[j], obj, Val(i))
    requires var s := g.Snap(); IsReg(s, obj) && obj < s.heap[s.running].body.top && IsReg(s, dst) && IsReg(s, dstkey)
    requires var s := g.Snap(); Reg(s, obj).Coll? && Reg(s, obj).ref in s.heap && Reg(s, src) != Nil
    requires Accepts(g.heap[Reg(g.Snap(), obj).ref].body, Key(i), Reg(g.Snap(), key)) && dst != obj && dst != dstkey
    modifies g
    ensures g.Valid() && Reg(g.Snap(), dst) == old(Reg(g.Snap(), src)) && Reg(g.Snap(), dstkey) == old(Reg(g.Snap(), key))
  {
    hide Inv, Holds, Stepped, Leaves, Accepts, Read;
    ghost var s := g.Snap();
    ghost var o, k, v, n := Reg(s, obj).ref, Reg(s, key), Reg(s, src), |s.heap[s.running].body.stack|;
    g.Execute(Store(obj, Key(i), key));
    ghost var s1 := g.Snap();
    g.Execute(Store(obj, Val(i), src));
    EntryStored(s, s1, g.Snap(), obj, i, key, src);
    var j := 0;
    while j < |program|
      invariant j <= |program| && g.Valid() && Holds(g.Snap(), obj, o, Key(i), k, n) && Holds(g.Snap(), obj, o, Val(i), v, n)
    {
      ghost var was := g.Snap();
      g.Execute(program[j]);
      LeftHolds(was, g.Snap(), obj, o, Key(i), k, n, program[j]);
      LeftHolds(was, g.Snap(), obj, o, Val(i), v, n, program[j]);
      j := j + 1;
    }
    ghost var s2 := g.Snap();
    g.Execute(Load(dst, obj, Val(i)));
    Loaded(s2, g.Snap(), obj, o, Val(i), v, n, dst);
    LoadLeaves(dst, obj, Key(i));
    LeftHolds(s2, g.Snap(), obj, o, Key(i), k, n, Load(dst, obj, Val(i)));
    ghost var s3 := g.Snap();
    g.Execute(Load(dstkey, obj, Key(i)));
    Loaded(s3, g.Snap(), obj, o, Key(i), k, n, dstkey);
    OtherReg(s3, g.Snap(), dstkey, obj, o, Key(i), k, n, dst);
  }

  lemma LoadLeaves(dst: nat, obj: nat, f: Field)
    requires dst != obj
    ensures forall p, g :: Leaves(Load(dst, p, g), obj, f)
  {}

  lemma OtherReg(s: State, s': State, dst: nat, obj: nat, o: Ref, f: Field, v: Value, n: nat, other: nat)
    requires Holds(s, obj, o, f, v, n) && Stepped(Load(dst, obj, f), s, s') && other != dst
    ensures Reg(s', other) == Reg(s, other)
  {
    LoadMeans(s, s', dst, obj, f);
  }
}
