// What stores store and loads load: laws of the fields of objects, and of what each command of a
// program leaves behind in registers and fields.
module GcFields {
  import opened GcHeap
  import opened GcMutator
  import opened GcCollector

  // ----- fields -----

  predicate HasField(b: Body, f: Field) {
    match f
    case Meta => b.Udata? || b.Table?
    case Env => b.Udata?
    case Cell => b.Upval?
    case ProtoOf => b.Closure?
    case Up(i) => b.Closure? && i < |b.upvals|
    case Arr(i) => b.Table? && i < |b.arr|
    case Key(i) => b.Table? && i < |b.nodes|
    case Val(i) => b.Table? && i < |b.nodes|
    case Slot(i) => b.Thread? && i < |b.stack|
    case Const(i) => b.Proto? && i < |b.consts|
  }

  // A key goes beside no value, a value beside a key.
  predicate Accepts(b: Body, f: Field, v: Value) {
    HasField(b, f) &&
    match f
    case Key(i) => b.nodes[i].val == Nil && (v.Atom? || v.Coll?)
    case Val(i) => b.nodes[i].key.Atom? || b.nodes[i].key.Coll?
    case _ => true
  }

  lemma ReadsWritten(b: Body, f: Field, v: Value)
    requires Accepts(b, f, v) && !f.Key?
    ensures Read(Write(b, f, v), f) == v
  {}

  // A new key is read back once it has a value, whatever it was before.
  lemma ReadsEntry(b: Body, i: nat, k: Value, v: Value)
    requires Accepts(b, Key(i), k)
    ensures Accepts(Write(b, Key(i), k), Val(i), v) && Read(Write(b, Key(i), k), Val(i)) == Nil
    ensures var b' := Write(Write(b, Key(i), k), Val(i), v); Read(b', Val(i)) == v && Read(b', Key(i)) == if v == Nil then Nil else k
  {}

  lemma EntryWritten(b: Body, i: nat, k: Value)
    requires Accepts(b, Key(i), k)
    ensures var b' := Write(b, Key(i), k); b'.Table? && i < |b'.nodes| && b'.nodes[i] == Entry(k, Nil)
  {}

  lemma ReadsOthers(b: Body, f: Field, v: Value, g: Field)
    requires g != f && (g.Key? ==> f != Val(g.i))
    ensures Read(Write(b, f, v), g) == Read(b, g)
  {}

  // A write that is not accepted changes nothing, and none makes or takes away a field.
  lemma WriteRefused(b: Body, f: Field, v: Value)
    ensures !Accepts(b, f, v) ==> Write(b, f, v) == b
    ensures forall g :: HasField(Write(b, f, v), g) <==> HasField(b, g)
  {}

  // A new object has the fields that were asked for, and nothing in them.
  lemma FreshFields(shape: Shape, f: Field)
    ensures HasField(Fresh(shape), f) <==>
            match shape
            case NewUdata => f.Meta? || f.Env?
            case NewUpval => f.Cell?
            case NewClosure(n) => f.ProtoOf? || (f.Up? && f.i < n)
            case NewTable(asize, hsize) => f.Meta? || (f.Arr? && f.i < asize) || ((f.Key? || f.Val?) && f.i < hsize)
            case NewThread => f.Slot? && f.i < 40
            case NewProto(n) => f.Const? && f.i < n
    ensures Read(Fresh(shape), f) == Nil
  {}

  // Collections do not change what can be read, but for stack slots above the top.
  lemma ReadsEvolved(b: Body, b': Body, f: Field)
    requires BodyEvolves(b, b') && (f.Slot? && b.Thread? ==> f.i < b.top)
    ensures Read(b', f) == Read(b, f) && (HasField(b', f) <==> HasField(b, f)) && (b'.Thread? ==> b.Thread? && b'.top == b.top)
  {
    if b' != b && b.Table? && (f.Key? || f.Val?) && f.i < |b.nodes| { assert EntryEvolves(b.nodes[f.i], b'.nodes[f.i]); }
  }

  // What can be read from a reachable object is reachable.
  lemma ReadIsReachable(s: State, o: Ref, f: Field)
    requires o in s.heap && Live(s, o) && Read(s.heap[o].body, f).Coll?
    requires f.Slot? ==> s.heap[o].body.Thread? && f.i < s.heap[o].body.top
    ensures Live(s, Read(s.heap[o].body, f).ref)
  {
    var r := Read(s.heap[o].body, f).ref;
    ReadIsEdge(s.heap[o].body, f);
    var n: nat :| ReachIn(s.heap, Roots(s), n, o);
    assert ReachIn(s.heap, Roots(s), n + 1, r);
  }

  lemma ReadIsEdge(b: Body, f: Field)
    requires Read(b, f).Coll? && (f.Slot? ==> b.Thread? && f.i < b.top)
    ensures Edge(b, Read(b, f).ref)
  {}

  lemma RunningIsLive(s: State)
    ensures Live(s, s.running)
  {
    assert ReachIn(s.heap, Roots(s), 0, s.running);
  }

  // ----- registers and objects -----

  ghost predicate HasThread(s: State) { s.running in s.heap && s.heap[s.running].body.Thread? }

  // A register of the running thread
  ghost predicate IsReg(s: State, i: nat) { HasThread(s) && i < |s.heap[s.running].body.stack| }

  // The object in register 'obj', below the top of a stack of n slots, holds v in its field f, which is
  // no slot of this stack.
  ghost predicate Holds(s: State, obj: nat, o: Ref, f: Field, v: Value, n: nat) {
    IsReg(s, obj) && obj < s.heap[s.running].body.top && |s.heap[s.running].body.stack| == n &&
    Reg(s, obj) == Coll(o) && o in s.heap && Read(s.heap[o].body, f) == v &&
    (f.Slot? ==> o != s.running && s.heap[o].body.Thread? && f.i < s.heap[o].body.top)
  }

  // Only this register is another one; all other objects are what they were.
  ghost predicate OnlyReg(s: State, s': State, dst: nat) {
    HasThread(s) && s'.running == s.running && HasThread(s') &&
    |s'.heap[s'.running].body.stack| == |s.heap[s.running].body.stack| && s'.heap[s'.running].body.top == s.heap[s.running].body.top &&
    (forall i: nat {:trigger Reg(s', i)} :: i != dst ==> Reg(s', i) == Reg(s, i)) &&
    forall r :: r in s.heap && r != s.running ==> r in s'.heap && s'.heap[r].body == s.heap[r].body
  }

  lemma BodiesAt(h: Heap, r: Ref)
    ensures r in Bodies(h) <==> r in h
    ensures r in h ==> Bodies(h)[r] == h[r].body
  {}

  // The bodies are those before, but for a register.
  lemma WrittenReg(s: State, s': State, m: map<Ref, Body>, dst: nat, v: Value)
    requires HasThread(s) && s'.running == s.running && Bodies(s'.heap) == WriteReg(m, s.running, dst, v)
    requires forall r :: r in s.heap ==> r in m && m[r] == s.heap[r].body
    ensures OnlyReg(s, s', dst) && (IsReg(s, dst) ==> Reg(s', dst) == v)
    ensures forall r :: r in m && r !in s.heap && r != s.running ==> r in s'.heap && s'.heap[r].body == m[r]
  {
    BodiesAt(s'.heap, s.running);
    forall r | r in m && r != s.running ensures r in s'.heap && s'.heap[r].body == m[r] { BodiesAt(s'.heap, r); }
  }

  // Move: the register has the other one's value.
  lemma MoveMeans(s: State, s': State, dst: nat, src: nat)
    requires HasThread(s) && Stepped(Move(dst, src), s, s')
    ensures OnlyReg(s, s', dst) && (IsReg(s, dst) ==> Reg(s', dst) == Reg(s, src))
  {
    forall r | r in s.heap ensures r in Bodies(s.heap) && Bodies(s.heap)[r] == s.heap[r].body { BodiesAt(s.heap, r); }
    WrittenReg(s, s', Bodies(s.heap), dst, Reg(s, src));
  }

  // Load: the register has what the object's field holds.
  lemma LoadMeans(s: State, s': State, dst: nat, obj: nat, f: Field)
    requires HasThread(s) && Stepped(Load(dst, obj, f), s, s') && Reg(s, obj).Coll? && Reg(s, obj).ref in s.heap
    ensures OnlyReg(s, s', dst) && (IsReg(s, dst) ==> Reg(s', dst) == Read(s.heap[Reg(s, obj).ref].body, f))
  {
    forall r | r in s.heap ensures r in Bodies(s.heap) && Bodies(s.heap)[r] == s.heap[r].body { BodiesAt(s.heap, r); }
    WrittenReg(s, s', Bodies(s.heap), dst, Read(s.heap[Reg(s, obj).ref].body, f));
  }

  // New: the register has a new object of this shape.
  lemma NewMeans(s: State, s': State, addr: Ref, dst: nat, shape: Shape)
    requires HasThread(s) && Stepped(New(addr, dst, shape), s, s') && addr !in s.heap
    ensures OnlyReg(s, s', dst) && (IsReg(s, dst) ==> Reg(s', dst) == Coll(addr))
    ensures addr in s'.heap && s'.heap[addr].body == Fresh(shape)
  {
    var m := Bodies(s.heap)[addr := Fresh(shape)];
    forall r | r in s.heap ensures r in m && m[r] == s.heap[r].body { BodiesAt(s.heap, r); }
    BodiesAt(s.heap, addr);
    WrittenReg(s, s', m, dst, Coll(addr));
  }

  lemma NewStringMeans(s: State, s': State, addr: Ref, dst: nat, bucket: nat, fixed: bool)
    requires HasThread(s) && Stepped(NewString(addr, dst, bucket, fixed), s, s') && addr !in s.heap && bucket < |s.strt|
    ensures OnlyReg(s, s', dst) && (IsReg(s, dst) ==> Reg(s', dst) == Coll(addr)) && addr in s'.heap && s'.heap[addr].body == Str
  {
    var m := Bodies(s.heap)[addr := Str];
    forall r | r in s.heap ensures r in m && m[r] == s.heap[r].body { BodiesAt(s.heap, r); }
    BodiesAt(s.heap, addr);
    WrittenReg(s, s', m, dst, Coll(addr));
  }

  lemma InternMeans(s: State, s': State, dst: nat, bucket: nat, pos: nat)
    requires HasThread(s) && Stepped(Intern(dst, bucket, pos), s, s') && bucket < |s.strt| && pos < |s.strt[bucket]|
    ensures OnlyReg(s, s', dst) && (IsReg(s, dst) ==> Reg(s', dst) == Coll(s.strt[bucket][pos]))
  {
    forall r | r in s.heap ensures r in Bodies(s.heap) && Bodies(s.heap)[r] == s.heap[r].body { BodiesAt(s.heap, r); }
    WrittenReg(s, s', Bodies(s.heap), dst, Coll(s.strt[bucket][pos]));
  }

  // Store: the object's field holds the register's value if it accepts it; its other fields and all
  // other objects are what they were.
  lemma StoreMeans(s: State, s': State, obj: nat, f: Field, src: nat)
    requires HasThread(s) && Stepped(Store(obj, f, src), s, s') && Reg(s, obj).Coll? && Reg(s, obj).ref in s.heap
    ensures var o := Reg(s, obj).ref;
            s'.running == s.running && s'.heap.Keys == s.heap.Keys &&
            (forall r :: r in s.heap && r != o ==> s'.heap[r].body == s.heap[r].body) &&
            (Accepts(s.heap[o].body, f, Reg(s, src)) && !f.Key? ==> Read(s'.heap[o].body, f) == Reg(s, src)) &&
            (Accepts(s.heap[o].body, f, Reg(s, src)) && f.Key? ==>
               s'.heap[o].body.Table? && f.i < |s'.heap[o].body.nodes| && s'.heap[o].body.nodes[f.i] == Entry(Reg(s, src), Nil)) &&
            (!Accepts(s.heap[o].body, f, Reg(s, src)) ==> s'.heap[o].body == s.heap[o].body) &&
            forall g :: (HasField(s'.heap[o].body, g) <==> HasField(s.heap[o].body, g)) &&
                        (g != f && (g.Key? ==> f != Val(g.i)) ==> Read(s'.heap[o].body, g) == Read(s.heap[o].body, g))
  {
    var o, v := Reg(s, obj).ref, Reg(s, src);
    var b := s.heap[o].body;
    assert s'.heap.Keys == Bodies(s'.heap).Keys == Bodies(s.heap).Keys == s.heap.Keys;
    forall r | r in s.heap ensures s'.heap[r].body == if r == o then Write(b, f, v) else s.heap[r].body {
      BodiesAt(s.heap, r);
      BodiesAt(s'.heap, r);
    }
    hide Stepped, AfterBodies, Bodies, Write, Read;
    WriteRefused(b, f, v);
    if Accepts(b, f, v) {
      if f.Key? { EntryWritten(b, f.i, v); } else { ReadsWritten(b, f, v); }
    }
    forall g | g != f && (g.Key? ==> f != Val(g.i)) ensures Read(Write(b, f, v), g) == Read(b, g) { ReadsOthers(b, f, v, g); }
  }

  // The top of the stack, and the roots
  lemma SetTopMeans(s: State, s': State, n: nat)
    requires HasThread(s) && Stepped(SetTop(n), s, s')
    ensures s'.running == s.running && HasThread(s') && (forall i: nat {:trigger Reg(s', i)} :: Reg(s', i) == Reg(s, i)) &&
            s'.heap[s'.running].body.top == (if n <= |s.heap[s.running].body.stack| then n else s.heap[s.running].body.top) &&
            |s'.heap[s'.running].body.stack| == |s.heap[s.running].body.stack|
    ensures forall r :: r in s.heap && r != s.running ==> r in s'.heap && s'.heap[r].body == s.heap[r].body
  {
    BodiesAt(s.heap, s.running);
    BodiesAt(s'.heap, s.running);
    forall r | r in s.heap && r != s.running ensures r in s'.heap && s'.heap[r].body == s.heap[r].body {
      BodiesAt(s.heap, r);
      BodiesAt(s'.heap, r);
    }
  }

  lemma RootsMean(s: State, s': State, c: Cmd, src: nat)
    requires HasThread(s) && Stepped(c, s, s') && (c == SetRegistry(src) || (c.SetTypeMeta? && c.src == src) || c == Resume(src))
    ensures s'.heap.Keys == s.heap.Keys && forall r :: r in s.heap ==> s'.heap[r].body == s.heap[r].body
    ensures c.SetRegistry? ==> s'.registry == Reg(s, src) && s'.mt == s.mt && s'.running == s.running
    ensures c.SetTypeMeta? && c.tag < |s.mt| ==>
              |s'.mt| == |s.mt| && s'.mt[c.tag] == Reg(s, src) && (forall i :: 0 <= i < |s.mt| && i != c.tag ==> s'.mt[i] == s.mt[i]) &&
              s'.registry == s.registry && s'.running == s.running
    ensures c.Resume? && Reg(s, src).Coll? && Reg(s, src).ref in s.heap && s.heap[Reg(s, src).ref].body.Thread? ==>
              Coll(s'.running) == Reg(s, src) && s'.registry == s.registry && s'.mt == s.mt
  {
    assert s'.heap.Keys == Bodies(s'.heap).Keys == Bodies(s.heap).Keys == s.heap.Keys;
    forall r | r in s.heap ensures s'.heap[r].body == s.heap[r].body {
      BodiesAt(s.heap, r);
      BodiesAt(s'.heap, r);
    }
  }
}
