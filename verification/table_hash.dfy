// Lua tables (ltable.c): an array part and a hash part that together refine a finite map.
module TableHash {
  import opened Common
  import opened TableNodes
  import opened TableFind
  import opened TableSizes
  import opened TableRoom

  // Where the value of a key is stored; Absent: luaO_nilobject.
  datatype Cell = Absent | InArray(i: nat) | InNode(n: nat)

  datatype Result = Entered(c: Cell) | IndexIsNil | IndexIsNaN

  const MAX_INT: nat := 0x7FFF_FFFD

  // ----- what a table is used for -----

  datatype Cmd = Assign(k: Key, v: Val) | Fetch(k: Key) | Drop(n: nat)

  function Assigned(m: map<Key, Val>, k: Key, v: Val): map<Key, Val> {
    if !Proper(k) then m else if v == Nil then m - {k} else m[k := v]
  }

  function AllAssigned(m: map<Key, Val>, cmds: seq<Cmd>): map<Key, Val> {
    if cmds == [] then m
    else
      var m' := AllAssigned(m, cmds[..|cmds| - 1]);
      var c := cmds[|cmds| - 1];
      if c.Assign? then Assigned(m', c.k, c.v) else m'
  }

  function Answers(m: map<Key, Val>, cmds: seq<Cmd>): seq<Val> {
    if cmds == [] then []
    else
      var front := cmds[..|cmds| - 1];
      var c := cmds[|cmds| - 1];
      var m' := AllAssigned(m, front);
      Answers(m, front) + (if c.Fetch? then [if c.k in m' then m'[c.k] else Nil] else [])
  }

  lemma NothingYet(m: map<Key, Val>)
    ensures AllAssigned(m, []) == m && Answers(m, []) == []
  {}

  lemma StepFrom(m: map<Key, Val>, cmds: seq<Cmd>, i: nat)
    requires i < |cmds|
    ensures var m' := AllAssigned(m, cmds[..i]); var c := cmds[i];
            AllAssigned(m, cmds[..i + 1]) == (if c.Assign? then Assigned(m', c.k, c.v) else m') &&
            Answers(m, cmds[..i + 1]) == Answers(m, cmds[..i]) + (if c.Fetch? then [if c.k in m' then m'[c.k] else Nil] else [])
  {
    assert cmds[..i + 1][..i] == cmds[..i];
  }

  // A removed entry without its key.
  function Without(node: seq<Node>, n: nat): seq<Node> {
    if n < |node| && node[n].val == Nil && node[n].key.ObjKey? then node[n := node[n].(key := DeadKey(node[n].key.id))] else node
  }

  class Table {
    const hash: Hash
    var arr: seq<Val>
    var node: seq<Node>
    var dummy: bool
    var lastfree: nat
    ghost var l: Layout

    ghost predicate Valid()
      reads this
    {
      HashOK(hash, node, l) && |arr| <= MAXASIZE && (exists lg: nat :: |node| == Pow2(lg)) && lastfree <= |node| &&
      (dummy ==> node == [Node(NilKey, Nil, NULL)] && lastfree == 0) &&
      (!dummy ==> forall i :: lastfree <= i < |node| ==> node[i].key != NilKey) &&
      forall i :: 0 <= i < |node| ==> !InArrayRange(node[i].key)
    }

    predicate InArrayRange(k: Key)
      reads this
    {
      k.IntKey? && 0 < k.i <= |arr|
    }

    // The value under a key; nil if there is none.
    ghost function Lookup(k: Key): Val
      reads this
    {
      if !Proper(k) then Nil else if InArrayRange(k) then arr[k.i - 1] else Find(node, k)
    }

    ghost function Read(c: Cell): Val
      reads this
    {
      if c.InArray? then (if c.i < |arr| then arr[c.i] else Nil)
      else if c.InNode? then (if c.n < |node| then node[c.n].val else Nil)
      else Nil
    }

    // The cell is the one that holds the key's value.
    ghost predicate Holds(c: Cell, k: Key)
      reads this
    {
      if c.InArray? then InArrayRange(k) && c.i == k.i - 1
      else if c.InNode? then Proper(k) && !InArrayRange(k) && Has(node, k, c.n)
      else !Proper(k) || (!InArrayRange(k) && forall i: nat :: !Has(node, k, i))
    }

    lemma HoldsReads(c: Cell, k: Key)
      requires Valid() && Holds(c, k)
      ensures Read(c) == Lookup(k)
    {
      if c.InNode? { FindIs(hash, node, l, k, c.n); }
    }

    constructor (hash: Hash)
      ensures Valid() && fresh(this) && (forall q :: Lookup(q) == Nil) && arr == [] && dummy
    {
      this.hash := hash;
      arr, node, dummy, lastfree := [], [Node(NilKey, Nil, NULL)], true, 0;
      l := Empty(1);
      new;
      EmptyOK(hash, node);
      EmptyFinds(node);
      assert |node| == Pow2(0);
    }

    // ----- searching -----

    // The loop over the chain from the main position.
    method FindNode(k: Key) returns (n: int)
      requires Valid() && Proper(k)
      ensures n == NULL ==> forall i: nat :: !Has(node, k, i)
      ensures n != NULL ==> n >= 0 && Has(node, k, n)
    {
      var m: nat := MainPos(hash, k, |node|);
      while true
        invariant m < |node| && forall i: nat :: Has(node, k, i) ==> OnChain(l, m, i)
        decreases After(l, m)
      {
        if node[m].key == k { return m; }
        forall i: nat | Has(node, k, i) ensures i != m && node[m].next != NULL && 0 <= node[m].next < |node| && OnChain(l, node[m].next, i) {
          StepChain(node, l, m, i);
          if i != m { assert ChainAt(node, l, m); }
        }
        if node[m].next == NULL { return NULL; }
        StepAfter(node, l, m);
        m := node[m].next;
      }
    }

    // luaH_get
    method Get(k: Key) returns (c: Cell)
      requires Valid() && !k.DeadKey?
      ensures Holds(c, k) && Read(c) == Lookup(k)
    {
      if k.IntKey? && 0 < k.i <= |arr| { return InArray(k.i - 1); }
      if !Proper(k) { return Absent; }
      var n := FindNode(k);
      c := if n == NULL then Absent else InNode(n);
      HoldsReads(c, k);
    }

    // setobj on a cell
    method Store(c: Cell, v: Val, ghost k: Key)
      requires Valid() && Holds(c, k) && !c.Absent?
      modifies this`arr, this`node
      ensures Valid() && Shape() == old(Shape()) && forall q :: Lookup(q) == if q == k then v else old(Lookup(q))
      ensures UsedNodes(node) == old(UsedNodes(node))
      ensures arr == if c.InArray? then old(arr)[c.i := v] else old(arr)
      ensures node == if c.InNode? then old(node)[c.n := old(node)[c.n].(val := v)] else old(node)
    {
      hide HashOK, Find, UsedNodes, Pow2;
      match c {
        case InArray(i) =>
          arr := arr[i := v];
        case InNode(n) =>
          StoreFinds(hash, node, l, n, v);
          node := node[n := node[n].(val := v)];
        case Absent =>
      }
    }

    // The sizes of both parts.
    ghost function Shape(): (int, int, bool)
      reads this
    {
      (|arr|, |node|, dummy)
    }

    // ----- entering keys -----

    // getfreepos: all nodes behind lastfree have been used.
    method GetFreePos() returns (n: int)
      requires Valid()
      modifies this`lastfree
      ensures n == NULL ==> Valid() && (dummy || forall i :: 0 <= i < |node| ==> node[i].key != NilKey)
      ensures n != NULL ==> n == lastfree < |node| && !dummy && node[n].key == NilKey && forall i :: n < i < |node| ==> node[i].key != NilKey
    {
      while lastfree > 0
        invariant Valid()
      {
        lastfree := lastfree - 1;
        if node[lastfree].key == NilKey { return lastfree; }
      }
      n := NULL;
    }

    // Entering this key finds a place without a rehash.
    ghost predicate Fits(k: Key)
      requires Valid()
      reads this
    {
      (node[MainPos(hash, k, |node|)].val == Nil && !dummy) ||
      (!dummy && exists i: nat :: i < |node| && node[i].key == NilKey)
    }

    ghost predicate Easy(k: Key)
      requires Valid()
      reads this
    {
      !Proper(k) || InArrayRange(k) || (exists i: nat :: Has(node, k, i)) || Fits(k)
    }

    // A free place has been taken from lastfree and is about to be used.
    ghost predicate Taken(n: nat)
      reads this
    {
      HashOK(hash, node, l) && |arr| <= MAXASIZE && (exists lg: nat :: |node| == Pow2(lg)) && !dummy &&
      n == lastfree < |node| && node[n].key == NilKey && (forall i :: n < i < |node| ==> node[i].key != NilKey) &&
      forall i :: 0 <= i < |node| ==> !InArrayRange(node[i].key)
    }

    // The node before mp in its chain.
    method Previous(mp: nat) returns (prev: nat)
      requires HashOK(hash, node, l) && mp < |node| && Proper(node[mp].key) && MainPos(hash, node[mp].key, |node|) != mp
      ensures prev < |node| && node[prev].next == mp
    {
      prev := MainPos(hash, node[mp].key, |node|);
      while node[prev].next != mp
        invariant prev < |node| && prev != mp && OnChain(l, prev, mp)
        decreases After(l, prev)
      {
        StepChain(node, l, prev, mp);
        StepAfter(node, l, prev);
        prev := node[prev].next;
      }
    }

    // What entering a key does to the nodes.
    ghost predicate EnteredIn(was: seq<Node>, k: Key, n: nat)
      reads this
    {
      Valid() && Has(node, k, n) && node[n].val == Nil && |node| == |was| && SameValues(was, node) &&
      |UsedNodes(node)| <= |UsedNodes(was)| + 1
    }

    // The colliding node leaves its place to the new key, for the free node n.
    method Move(k: Key, mp: nat, n: nat)
      requires Taken(n) && Proper(k) && Holds(Absent, k) && mp == MainPos(hash, k, |node|)
      requires Proper(node[mp].key) && MainPos(hash, node[mp].key, |node|) != mp
      modifies this`node, this`l
      ensures EnteredIn(old(node), k, mp)
    {
      hide HashOK, SameValues, MainPos, Pow2;
      var prev := Previous(mp);
      MoveFinds(hash, node, l, mp, n, prev, k);
      PrevUsed(hash, node, l, prev, n, mp);
      ghost var was := node;
      LayoutSize(hash, node, l);
      l := Layout(l.path[n := l.path[mp]][mp := mp], l.ord[n := l.ord[mp]]);
      node := node[prev := node[prev].(next := n)];
      node := node[n := node[mp]];
      node := node[mp := Node(node[mp].key, Nil, NULL)];
      node := node[mp := node[mp].(key := k)];
      assert node == was[prev := was[prev].(next := n)][n := was[mp]][mp := Node(k, Nil, NULL)];
    }

    // The new key goes to the free node n, behind the colliding one.
    method Behind(k: Key, mp: nat, n: nat)
      requires Taken(n) && Proper(k) && Holds(Absent, k) && mp == MainPos(hash, k, |node|)
      requires Proper(node[mp].key) && MainPos(hash, node[mp].key, |node|) == mp
      modifies this`node, this`l
      ensures EnteredIn(old(node), k, n)
    {
      hide HashOK, SameValues, MainPos, Pow2, Between;
      InsertFinds(hash, node, l, mp, n, k);
      UnusedIsEmpty(hash, node, l, n);
      ghost var was := node;
      LayoutSize(hash, node, l);
      l := Layout(l.path[n := l.path[mp]], l.ord[n := Between(node, l, mp)]);
      node := node[n := node[n].(next := node[mp].next)];
      node := node[mp := node[mp].(next := n)];
      node := node[n := node[n].(key := k)];
      assert node == was[n := Node(k, Nil, was[mp].next)][mp := was[mp].(next := n)];
    }

    // The main position is free.
    method Here(k: Key, mp: nat)
      requires Valid() && !dummy && Proper(k) && Holds(Absent, k) && mp == MainPos(hash, k, |node|) &&
               node[mp].val == Nil
      modifies this`node
      ensures EnteredIn(old(node), k, mp)
    {
      hide HashOK, SameValues, MainPos, Pow2;
      PlaceFinds(hash, node, l, mp, k);
      node := node[mp := node[mp].(key := k)];
    }

    // luaH_newkey up to the rehash; NULL: no free place.
    method Enter(k: Key) returns (n: int)
      requires Valid() && Proper(k) && Holds(Absent, k)
      modifies this`node, this`lastfree, this`l
      ensures (n == NULL) == !old(Fits(k))
      ensures n == NULL ==> node == old(node) && l == old(l) && Valid()
      ensures n != NULL ==> n >= 0 && EnteredIn(old(node), k, n)
    {
      var mp := MainPos(hash, k, |node|);
      if node[mp].val != Nil || dummy {
        n := GetFreePos();
        if n == NULL { return; }
        LiveKey(mp);
        if MainPos(hash, node[mp].key, |node|) != mp {
          Move(k, mp, n);
          n := mp;
        } else {
          Behind(k, mp, n);
        }
      } else {
        Here(k, mp);
        n := mp;
      }
    }

    lemma LiveKey(mp: nat)
      requires HashOK(hash, node, l) && mp < |node| && node[mp].val != Nil
      ensures Proper(node[mp].key)
    {}

    // ----- luaH_newkey, luaH_set -----

    // The value that an entered key has, before one is stored.
    lemma EnterLooks(was: seq<Node>, k: Key, n: nat)
      requires EnteredIn(was, k, n) && Proper(k) && !InArrayRange(k)
      ensures Holds(InNode(n), k) && Read(InNode(n)) == Nil
      ensures forall q :: Lookup(q) == if !Proper(q) then Nil else ValueIn(arr, was, q)
    {}

    // How many rehashes are still ahead.
    static ghost function Rounds(easy: bool): nat { if easy then 0 else 1 }

    // luaH_newkey.  With a place for the key it does not rehash; without one it rehashes once,
    // and then there is a place.
    method NewKey(k: Key) returns (r: Result)
      requires Valid() && Holds(Absent, k) && !k.DeadKey?
      modifies this
      ensures Valid() && (forall q :: Lookup(q) == old(Lookup(q)))
      ensures r.IndexIsNil? <==> k == NilKey
      ensures r.IndexIsNaN? <==> k == NaNKey
      ensures !r.Entered? ==> Shape() == old(Shape())
      ensures r.Entered? ==> !r.c.Absent? && Holds(r.c, k) && Read(r.c) == Nil
      ensures r.Entered? && old(Fits(k)) ==> arr == old(arr) && Shape() == old(Shape()) && |UsedNodes(node)| <= old(|UsedNodes(node)|) + 1
      decreases Rounds(!Proper(k) || Fits(k)), 2
    {
      hide HashOK, Pow2, UsedNodes, SameValues, MainPos;
      if k == NilKey { return IndexIsNil; }
      if k == NaNKey { return IndexIsNaN; }
      ghost var was := node;
      var n := Enter(k);
      if n == NULL {
        Rehash(k);
        r := SetCell(k);
      } else {
        EnterLooks(was, k, n);
        r := Entered(InNode(n));
      }
    }

    // luaH_set: the cell for the key, entered if it was not there
    method SetCell(k: Key) returns (r: Result)
      requires Valid() && !k.DeadKey?
      modifies this
      ensures Valid() && (forall q :: Lookup(q) == old(Lookup(q)))
      ensures r.IndexIsNil? <==> k == NilKey
      ensures r.IndexIsNaN? <==> k == NaNKey
      ensures !r.Entered? ==> Shape() == old(Shape())
      ensures r.Entered? ==> !r.c.Absent? && Holds(r.c, k) && Read(r.c) == Lookup(k)
      ensures r.Entered? && old(Easy(k)) ==>
                arr == old(arr) && Shape() == old(Shape()) &&
                |UsedNodes(node)| <= old(|UsedNodes(node)|) + (if InArrayRange(k) then 0 else 1)
      decreases Rounds(Easy(k)), 3
    {
      hide HashOK, Pow2, UsedNodes, MainPos;
      var c := Get(k);
      if !c.Absent? { return Entered(c); }
      r := NewKey(k);
      if r.Entered? { HoldsReads(r.c, k); }
    }

    // Assigning to a key: luaH_set and the store.
    method Set(k: Key, v: Val) returns (r: Result)
      requires Valid() && !k.DeadKey?
      modifies this
      ensures Valid()
      ensures r.IndexIsNil? <==> k == NilKey
      ensures r.IndexIsNaN? <==> k == NaNKey
      ensures !r.Entered? ==> (forall q :: Lookup(q) == old(Lookup(q)))
      ensures r.Entered? ==> forall q :: Lookup(q) == if q == k then v else old(Lookup(q))
      ensures r.Entered? && old(Easy(k)) ==>
                Shape() == old(Shape()) &&
                |UsedNodes(node)| <= old(|UsedNodes(node)|) + (if old(InArrayRange(k)) then 0 else 1)
      decreases Rounds(Easy(k)), 4
    {
      r := SetCell(k);
      if r.Entered? { Store(r.c, v, k); }
    }

    // ----- rehash -----

    // numusehash
    method NumUseHash(nums: array<nat>, nasize: nat) returns (totaluse: nat, nasize': nat)
      requires Valid() && nums.Length == MAXBITS + 1 && Counts(nums[..], ArrayInts(arr)) && nasize == |ArrayInts(arr)|
      modifies nums
      ensures Counts(nums[..], ArrayInts(arr) + HashInts(node, 0)) && totaluse == |HashKeys(node, 0)|
      ensures nasize' == |ArrayInts(arr) + HashInts(node, 0)|
    {
      hide HashOK, Pow2, Counts, HashKeys, HashInts, IndexOf, ArrayInts;
      totaluse := 0;
      var ause := 0;
      var i: nat := |node|;
      ghost var s := ArrayInts(arr);
      LiveCount(arr, node);
      NoneBeyond(node);
      assert s + HashInts(node, i) == s;
      while i > 0
        invariant i <= |node| && Valid() && Counts(nums[..], s + HashInts(node, i))
        invariant totaluse == |HashKeys(node, i)| && ause == |HashInts(node, i)|
      {
        i := i - 1;
        KeysApart(i);
        HashStep(node, i);
        if node[i].val != Nil {
          var one := CountInt(node[i].key, nums, s + HashInts(node, i + 1));
          assert s + HashInts(node, i + 1) + IndexOf(node[i].key) == s + HashInts(node, i);
          DisjointCount(HashInts(node, i + 1), IndexOf(node[i].key));
          ause := ause + one;
          totaluse := totaluse + 1;
        }
      }
      DisjointCount(s, HashInts(node, 0));
      nasize' := nasize + ause;
    }

    // The key of a node is none that has been counted.
    lemma KeysApart(i: nat)
      requires Valid() && i < |node|
      ensures Unique(node) && LiveProper(node)
      ensures node[i].key.IntKey? ==> node[i].key.i !in ArrayInts(arr) && (node[i].val != Nil ==> node[i].key.i !in HashInts(node, i + 1))
    {}

    // setnodevector
    method SetNodeVector(size: nat)
      modifies this`node, this`dummy, this`lastfree, this`l
      ensures dummy <==> size == 0
      ensures size == 0 ==> |node| == 1 && lastfree == 0
      ensures size > 0 ==> lastfree == |node| && size <= |node|
      ensures (exists lg: nat :: |node| == Pow2(lg)) && l == Empty(|node|)
      ensures forall i :: 0 <= i < |node| ==> node[i] == Node(NilKey, Nil, NULL)
    {
      var lsize := 0;
      if size == 0 {
        dummy := true;
        lastfree := 0;
      } else {
        lsize := CeilLog2(size);
        dummy := false;
        lastfree := Pow2(lsize);
      }
      node := seq(Pow2(lsize), i => Node(NilKey, Nil, NULL));
      l := Empty(|node|);
    }

    // A table being filled again from what it held before: the keys in 'done' have been entered,
    // and those that stay in the array part are still there.
    ghost predicate Refilling(was: seq<Val>, nold: seq<Node>, nasize: nat, nhsize: nat, done: set<Key>)
      reads this
    {
      Valid() && |arr| == nasize && (dummy <==> nhsize == 0) && (nhsize > 0 ==> nhsize <= |node|) &&
      done <= LiveKeys(was, nold) &&
      (forall q :: Proper(q) ==>
         Lookup(q) == if q in done || (Within(q, nasize) && Within(q, |was|)) then ValueIn(was, nold, q) else Nil) &&
      |UsedNodes(node)| <= |Outside(done, nasize)|
    }

    // The next key has a place.
    lemma StillRoom(was: seq<Val>, nold: seq<Node>, nasize: nat, nhsize: nat, done: set<Key>, k: Key)
      requires Refilling(was, nold, nasize, nhsize, done) && k in LiveKeys(was, nold) && k !in done && Proper(k)
      requires |Outside(LiveKeys(was, nold), nasize)| <= nhsize
      ensures Easy(k)
      ensures |Outside(done + {k}, nasize)| == |Outside(done, nasize)| + (if Within(k, nasize) then 0 else 1)
    {
      if Within(k, nasize) {
        assert Outside(done + {k}, nasize) == Outside(done, nasize);
      } else {
        assert Outside(done + {k}, nasize) == Outside(done, nasize) + {k};
        FewerOrSame(Outside(done + {k}, nasize), Outside(LiveKeys(was, nold), nasize));
        SomeUnused(node);
      }
    }

    method Reinsert(k: Key, v: Val, ghost was: seq<Val>, ghost nold: seq<Node>, ghost nasize: nat, ghost nhsize: nat,
                    ghost done: set<Key>)
      requires Refilling(was, nold, nasize, nhsize, done) && k in LiveKeys(was, nold) && k !in done && Proper(k)
      requires v == ValueIn(was, nold, k) && |Outside(LiveKeys(was, nold), nasize)| <= nhsize
      modifies this
      ensures Refilling(was, nold, nasize, nhsize, done + {k})
      decreases 0, 5
    {
      StillRoom(was, nold, nasize, nhsize, done, k);
      hide HashOK, Pow2, Optimal, LiveKeys, Outside, UsedNodes;
      var r := Set(k, v);
    }

    // luaH_resize, where all keys fit into the new sizes
    method Resize(nasize: nat, nhsize: nat)
      requires Valid() && nasize <= MAXASIZE && |Outside(LiveKeys(arr, node), nasize)| <= nhsize
      modifies this
      ensures Valid() && (forall q :: Lookup(q) == old(Lookup(q))) && |arr| == nasize
      ensures (dummy <==> nhsize == 0) && (nhsize > 0 ==> nhsize <= |node|)
      ensures |UsedNodes(node)| <= old(|Outside(LiveKeys(arr, node), nasize)|)
      decreases 1, 0
    {
      hide HashOK, Pow2, HashKeys, LiveKeys, Outside, UsedNodes, MainPos, Refilling, IntKeys, ArrayInts, Sound;
      var was, nold := arr, node;
      ValidIsSound();
      if nasize > |was| { arr := arr + seq(nasize - |was|, i => Nil); }
      SetNodeVector(nhsize);
      if nasize < |was| { arr := arr[..nasize]; }
      ghost var done: set<Key> := {};
      EmptyOK(hash, node);
      EmptyFinds(node);
      FillingStarts(was, nold, nasize, nhsize);
      var i: nat := nasize;
      while i < |was|
        invariant Refilling(was, nold, nasize, nhsize, done)
        invariant forall q :: q in done ==> Within(q, i) && q in IntKeys(ArrayInts(was))
        invariant forall j :: nasize < j <= i && Present(was, j) ==> IntKey(j) in done
      {
        if was[i] != Nil {
          VanishingKey(was, nold, i);
          Reinsert(IntKey(i + 1), was[i], was, nold, nasize, nhsize, done);
          done := done + {IntKey(i + 1)};
        }
        i := i + 1;
      }
      i := |nold|;
      NoneBeyond(nold);
      while i > 0
        invariant i <= |nold| && Refilling(was, nold, nasize, nhsize, done)
        invariant forall q :: q in done ==> q in IntKeys(ArrayInts(was)) || q in HashKeys(nold, i)
        invariant forall j :: nasize < j <= |was| && Present(was, j) ==> IntKey(j) in done
        invariant HashKeys(nold, i) <= done
      {
        i := i - 1;
        HashEntry(was, nold, i);
        if nold[i].val != Nil {
          Reinsert(nold[i].key, nold[i].val, was, nold, nasize, nhsize, done);
          done := done + {nold[i].key};
        }
      }
      FillingEnds(was, nold, nasize, nhsize, done);
    }

    lemma ValidIsSound()
      requires Valid()
      ensures Sound(arr, node)
    {
      forall i: nat | i < |node| && node[i].val != Nil ensures SoundAt(arr, node, i) { FindIs(hash, node, l, node[i].key, i); }
    }

    // With an empty node vector only what stays in the array part has a value.
    lemma FillingStarts(was: seq<Val>, nold: seq<Node>, nasize: nat, nhsize: nat)
      requires HashOK(hash, node, l) && nasize <= MAXASIZE && (exists lg: nat :: |node| == Pow2(lg)) &&
               lastfree <= |node|
      requires (dummy <==> nhsize == 0) && (nhsize == 0 ==> |node| == 1 && lastfree == 0) &&
               (nhsize > 0 ==> lastfree == |node| && nhsize <= |node|)
      requires (forall i :: 0 <= i < |node| ==> node[i] == Node(NilKey, Nil, NULL)) && UsedNodes(node) == {}
      requires forall q :: Proper(q) ==> Find(node, q) == Nil
      requires arr == if nasize <= |was| then was[..nasize] else was + seq(nasize - |was|, i => Nil)
      ensures Refilling(was, nold, nasize, nhsize, {})
    {
      assert Outside({}, nasize) == {};
    }

    lemma FillingEnds(was: seq<Val>, nold: seq<Node>, nasize: nat, nhsize: nat, done: set<Key>)
      requires Refilling(was, nold, nasize, nhsize, done)
      requires HashKeys(nold, 0) <= done && forall j :: nasize < j <= |was| && Present(was, j) ==> IntKey(j) in done
      ensures Valid() && |arr| == nasize && (dummy <==> nhsize == 0) && (nhsize > 0 ==> nhsize <= |node|)
      ensures |UsedNodes(node)| <= |Outside(LiveKeys(was, nold), nasize)|
      ensures forall q :: Lookup(q) == if !Proper(q) then Nil else ValueIn(was, nold, q)
    {
      FewerOrSame(Outside(done, nasize), Outside(LiveKeys(was, nold), nasize));
      forall q ensures Lookup(q) == if !Proper(q) then Nil else ValueIn(was, nold, q) {
        if Proper(q) && ValueIn(was, nold, q) != Nil { EntryDone(was, nold, nasize, done, q); }
      }
    }

    // rehash: the array part gets the best size, and there is a place for the extra key.
    method Rehash(ek: Key)
      requires Valid() && Proper(ek) && Holds(Absent, ek)
      modifies this
      ensures Valid() && (forall q :: Lookup(q) == old(Lookup(q))) && Easy(ek)
      ensures Optimal(old(ArrayInts(arr) + HashInts(node, 0)) + IndexOf(ek), |arr|)
      decreases 1, 1
    {
      hide HashOK, Pow2, Counts, HashKeys, HashInts, IndexOf, ArrayInts, Optimal, LiveKeys, Slice, MainPos;
      var nums := new nat[MAXBITS + 1](i => 0);
      var nasize := NumUseArray(arr, nums);
      var totaluse := nasize;
      var inHash;
      inHash, nasize := NumUseHash(nums, nasize);
      totaluse := totaluse + inHash;
      ghost var s := ArrayInts(arr) + HashInts(node, 0);
      ExtraIsNew(arr, node, ek);
      DisjointCount(s, IndexOf(ek));
      var one := CountInt(ek, nums, s);
      nasize := nasize + one;
      totaluse := totaluse + 1;
      var na, n := ComputeSizes(nums, nasize, s + IndexOf(ek));
      LiveCount(arr, node);
      RoomLeft(arr, node, ek, n, totaluse, na);
      Resize(n, totaluse - na);
      if !Within(ek, n) { SomeUnused(node); }
    }

    // The collector drops the key of a removed entry (removeentry in lgc.c).
    method RemoveEntry(n: nat)
      requires Valid()
      modifies this`node
      ensures Valid() && forall q :: Lookup(q) == old(Lookup(q))
      ensures node == Without(old(node), n)
    {
      if n < |node| && node[n].val == Nil && node[n].key.ObjKey? {
        KillFinds(hash, node, l, n, node[n].key.id);
        hide HashOK, Pow2;
        node := node[n := node[n].(key := DeadKey(node[n].key.id))];
      }
    }

    method Value(k: Key) returns (v: Val)
      requires Valid() && !k.DeadKey?
      ensures v == Lookup(k)
    {
      var c := Get(k);
      v := match c
           case Absent => Nil
           case InArray(i) => arr[i]
           case InNode(n) => node[n].val;
    }

    // ----- the table as a finite map -----

    ghost function View(): (m: map<Key, Val>)
      requires Valid()
      reads this
      ensures forall q :: (q in m <==> Lookup(q) != Nil) && (q in m ==> m[q] == Lookup(q))
    {
      ValidIsSound();
      LookupLive();
      map q | q in LiveKeys(arr, node) :: Lookup(q)
    }

    lemma LookupLive()
      requires Valid()
      ensures forall q :: Lookup(q) != Nil <==> q in LiveKeys(arr, node)
    {
      ValidIsSound();
      forall q ensures Lookup(q) != Nil <==> q in LiveKeys(arr, node) {
        if Lookup(q) != Nil {
          if InArrayRange(q) {
            assert Present(arr, q.i) && q.i in ArrayInts(arr);
          } else {
            var i: nat :| Has(node, q, i) && node[i].val != Nil;
            assert q in HashKeys(node, 0);
          }
        }
        if q in HashKeys(node, 0) {
          var i: nat :| i < |node| && node[i].val != Nil && node[i].key == q;
          assert SoundAt(arr, node, i);
        }
      }
    }

    // After any sequence of assignments, removals of dead keys and lookups, every lookup has
    // returned what the map of the assignments so far holds.
    method Run(cmds: seq<Cmd>) returns (out: seq<Val>)
      requires Valid() && forall i :: 0 <= i < |cmds| ==> !cmds[i].Drop? ==> !cmds[i].k.DeadKey?
      modifies this
      ensures Valid() && View() == AllAssigned(old(View()), cmds) && out == Answers(old(View()), cmds)
    {
      hide Valid, Lookup, AllAssigned, Answers;
      out := [];
      ghost var m0 := View();
      NothingYet(m0);
      var i := 0;
      while i < |cmds|
        invariant i <= |cmds| && Valid() && View() == AllAssigned(m0, cmds[..i]) && out == Answers(m0, cmds[..i])
      {
        StepFrom(m0, cmds, i);
        match cmds[i] {
          case Assign(k, v) => Put(k, v);
          case Fetch(k) =>
            var v := Fetched(k);
            out := out + [v];
          case Drop(n) => Removed(n);
        }
        i := i + 1;
      }
      assert cmds[..i] == cmds;
    }

    method Put(k: Key, v: Val)
      requires Valid() && !k.DeadKey?
      modifies this
      ensures Valid() && View() == Assigned(old(View()), k, v)
    {
      hide Valid, Lookup;
      NotProper(k);
      var r := Set(k, v);
      assert forall q :: q in View() <==> q in Assigned(old(View()), k, v);
    }

    lemma NotProper(k: Key)
      ensures !Proper(k) ==> Lookup(k) == Nil
    {}

    method Fetched(k: Key) returns (v: Val)
      requires Valid() && !k.DeadKey?
      ensures v == if k in View() then View()[k] else Nil
    {
      v := Value(k);
    }

    method Removed(n: nat)
      requires Valid()
      modifies this
      ensures Valid() && View() == old(View())
    {
      hide Valid, Lookup;
      RemoveEntry(n);
      assert forall q :: q in View() <==> q in old(View());
    }

    // ----- length -----

    ghost predicate Border(n: nat)
      reads this
    {
      (n == 0 || Lookup(IntKey(n)) != Nil) && Lookup(IntKey(n + 1)) == Nil
    }

    // luaH_getn
    method GetN() returns (n: nat)
      requires Valid()
      ensures Border(n)
    {
      var j := |arr|;
      if j > 0 && arr[j - 1] == Nil {
        var i := 0;
        while j - i > 1
          invariant 0 <= i < j <= |arr| && (i == 0 || arr[i - 1] != Nil) && arr[j - 1] == Nil
        {
          var m := (i + j) / 2;
          if arr[m - 1] == Nil { j := m; } else { i := m; }
        }
        n := i;
      } else if dummy {
        EmptyFinds(node);
        n := j;
      } else {
        n := UnboundSearch(j);
      }
    }

    method UnboundSearch(start: nat) returns (n: nat)
      requires Valid() && (start == 0 || Lookup(IntKey(start)) != Nil)
      ensures Border(n)
    {
      var i, j := start, start + 1;
      var v := Value(IntKey(j));
      while v != Nil
        invariant 0 <= i < j && (i == 0 || Lookup(IntKey(i)) != Nil) && v == Lookup(IntKey(j))
        decreases v != Nil, MAX_INT + 1 - j
      {
        i := j;
        j := j * 2;
        if j > MAX_INT {
          n := LinearSearch();
          return;
        }
        v := Value(IntKey(j));
      }
      while j - i > 1
        invariant 0 <= i < j && (i == 0 || Lookup(IntKey(i)) != Nil) && Lookup(IntKey(j)) == Nil
      {
        var m := (i + j) / 2;
        v := Value(IntKey(m));
        if v == Nil { j := m; } else { i := m; }
      }
      n := i;
    }

    // The table was built with bad purposes.
    method LinearSearch() returns (n: nat)
      requires Valid()
      ensures Border(n)
    {
      hide Valid, Lookup, LiveKeys, Outside;
      ghost var keys := LiveKeys(arr, node);
      var i := 1;
      var v := Value(IntKey(i));
      while v != Nil
        invariant i > 0 && v == Lookup(IntKey(i)) && (i == 1 || Lookup(IntKey(i - 1)) != Nil) &&
                  keys == LiveKeys(arr, node)
        decreases |Outside(keys, i - 1)|
      {
        FewerAhead(i);
        i := i + 1;
        v := Value(IntKey(i));
      }
      n := i - 1;
    }

    lemma FewerAhead(i: nat)
      requires Valid() && i > 0 && Lookup(IntKey(i)) != Nil
      ensures |Outside(LiveKeys(arr, node), i)| < |Outside(LiveKeys(arr, node), i - 1)|
    {
      LookupLive();
      hide Valid, Lookup, LiveKeys;
      var keys := LiveKeys(arr, node);
      assert IntKey(i) in Outside(keys, i - 1) && IntKey(i) !in Outside(keys, i);
      Fewer(Outside(keys, i), Outside(keys, i - 1));
    }
  }

  ghost function ValueIn(arr: seq<Val>, node: seq<Node>, q: Key): Val {
    if Within(q, |arr|) then arr[q.i - 1] else Find(node, q)
  }

  // What holds of the entries of a table before its parts are replaced.
  ghost predicate SoundAt(arr: seq<Val>, node: seq<Node>, i: nat)
    requires i < |node|
  {
    Proper(node[i].key) && !Within(node[i].key, |arr|) && ValueIn(arr, node, node[i].key) == node[i].val && node[i].key !in HashKeys(node, i + 1)
  }

  ghost predicate Sound(arr: seq<Val>, node: seq<Node>) {
    forall i: nat :: i < |node| && node[i].val != Nil ==> SoundAt(arr, node, i)
  }

  lemma VanishingKey(was: seq<Val>, nold: seq<Node>, i: nat)
    requires i < |was| && was[i] != Nil
    ensures Present(was, i + 1) && IntKey(i + 1) in LiveKeys(was, nold) && ValueIn(was, nold, IntKey(i + 1)) == was[i]
    ensures IntKey(i + 1) in IntKeys(ArrayInts(was))
  {
    assert i + 1 in ArrayInts(was);
  }

  lemma HashEntry(was: seq<Val>, nold: seq<Node>, i: nat)
    requires i < |nold| && Sound(was, nold)
    ensures nold[i].val == Nil ==> HashKeys(nold, i) == HashKeys(nold, i + 1)
    ensures nold[i].val != Nil ==>
              HashKeys(nold, i) == HashKeys(nold, i + 1) + {nold[i].key} && Proper(nold[i].key) &&
              nold[i].key in LiveKeys(was, nold) &&
              nold[i].key !in HashKeys(nold, i + 1) && nold[i].key !in IntKeys(ArrayInts(was)) &&
              ValueIn(was, nold, nold[i].key) == nold[i].val
  {
    if nold[i].val != Nil {
      assert SoundAt(was, nold, i);
      assert nold[i].key in HashKeys(nold, 0);
    }
  }

  lemma EntryDone(was: seq<Val>, nold: seq<Node>, nasize: nat, done: set<Key>, q: Key)
    requires Proper(q) && ValueIn(was, nold, q) != Nil && HashKeys(nold, 0) <= done
    requires forall j :: nasize < j <= |was| && Present(was, j) ==> IntKey(j) in done
    ensures q in done || (Within(q, nasize) && Within(q, |was|))
  {
    if Within(q, |was|) {
      assert Present(was, q.i);
    } else {
      var i: nat :| Has(nold, q, i) && nold[i].val != Nil;
      assert nold[i].key in HashKeys(nold, 0);
    }
  }
}
