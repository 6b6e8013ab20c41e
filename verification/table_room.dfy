// The counts of rehash add up: the new sizes leave a place for every key and for the extra one.
module TableRoom {
  import opened Common
  import opened TableNodes
  import opened TableSizes

  ghost function IntKeys(s: set<int>): set<Key> { set k | k in s :: IntKey(k) }

  lemma {:induction false} IntKeysCount(s: set<int>)
    ensures |IntKeys(s)| == |s|
    decreases |s|
  {
    if s == {} {
      assert IntKeys(s) == {};
    } else {
      var k := Pick(s);
      IntKeysCount(s - {k});
      assert IntKeys(s) == IntKeys(s - {k}) + {IntKey(k)};
    }
  }

  // The keys with a value among the nodes from 'from' on, and those of them that can be array indices.
  ghost function HashKeys(node: seq<Node>, from: nat): set<Key> {
    set i: nat | from <= i < |node| && node[i].val != Nil :: node[i].key
  }

  ghost function HashInts(node: seq<Node>, from: nat): set<int> {
    set k | k in HashKeys(node, from) && IndexOf(k) != {} :: k.i
  }

  ghost function LiveKeys(arr: seq<Val>, node: seq<Node>): set<Key> { IntKeys(ArrayInts(arr)) + HashKeys(node, 0) }

  predicate Within(k: Key, n: nat) { k.IntKey? && 0 < k.i <= n }

  ghost function Outside(keys: set<Key>, n: nat): set<Key> { set k | k in keys && !Within(k, n) }

  ghost function Inside(keys: set<Key>, n: nat): set<Key> { set k | k in keys && Within(k, n) }

  lemma OutsideCount(keys: set<Key>, n: nat)
    ensures |Outside(keys, n)| + |Inside(keys, n)| == |keys|
  {
    assert keys == Outside(keys, n) + Inside(keys, n);
    assert Outside(keys, n) * Inside(keys, n) == {};
  }

  // All keys of a table and the extra one, by their kind.
  lemma InsideIs(arr: seq<Val>, node: seq<Node>, ek: Key, n: nat)
    requires n <= MAXASIZE && |arr| <= MAXASIZE
    ensures var all := LiveKeys(arr, node) + {ek}; var s := ArrayInts(arr) + HashInts(node, 0) + IndexOf(ek);
            Inside(all, n) == IntKeys(Slice(s, 0, n)) && |Inside(all, n)| == |Slice(s, 0, n)|
  {
    var all, s := LiveKeys(arr, node) + {ek}, ArrayInts(arr) + HashInts(node, 0) + IndexOf(ek);
    forall k ensures k in Inside(all, n) <==> k in IntKeys(Slice(s, 0, n)) {
      if k in Inside(all, n) {
        if k in HashKeys(node, 0) { assert k.i in HashInts(node, 0); }
        assert k.i in s && k.i in Slice(s, 0, n);
      }
      if k in IntKeys(Slice(s, 0, n)) {
        if k.i in HashInts(node, 0) { assert k in HashKeys(node, 0); }
      }
    }
    IntKeysCount(Slice(s, 0, n));
  }

  // What rehash decides, said of the keys alone: the array part gets the largest size among 2^0 to 2^30
  // of which more than half is in use, or none.
  lemma SizeChosen(arr: seq<Val>, node: seq<Node>, ek: Key, n: nat)
    requires |arr| <= 0x4000_0000 && Optimal(ArrayInts(arr) + HashInts(node, 0) + IndexOf(ek), n)
    ensures n > 0 ==> |Inside(LiveKeys(arr, node) + {ek}, n)| > n / 2 && exists i: nat :: i <= 30 && n == Pow2(i)
    ensures forall i: nat :: i <= 30 && Pow2(i) > n ==> |Inside(LiveKeys(arr, node) + {ek}, Pow2(i))| <= Pow2(i) / 2
  {
    hide ArrayInts, HashInts, IndexOf, LiveKeys, Inside, Slice;
    Pow2Max();
    forall i: nat | i <= 30 ensures Pow2(i) <= MAXASIZE { Pow2Grows(i, MAXBITS); }
    if n > 0 {
      assert IsPower(n);
      assert n <= MAXASIZE;
      InsideIs(arr, node, ek, n);
    }
    forall i: nat | i <= 30 && Pow2(i) > n ensures |Inside(LiveKeys(arr, node) + {ek}, Pow2(i))| <= Pow2(i) / 2 {
      InsideIs(arr, node, ek, Pow2(i));
    }
  }

  // rehash: with totaluse keys in all, na of them in 1..n, the rest fits, and one place is left
  // if the extra key is among the rest.
  lemma RoomLeft(arr: seq<Val>, node: seq<Node>, ek: Key, n: nat, totaluse: nat, na: nat)
    requires n <= MAXASIZE && |arr| <= MAXASIZE && ek !in LiveKeys(arr, node)
    requires totaluse == |LiveKeys(arr, node)| + 1
    requires na == |Slice(ArrayInts(arr) + HashInts(node, 0) + IndexOf(ek), 0, n)|
    ensures totaluse >= na
    ensures |Outside(LiveKeys(arr, node), n)| == totaluse - na - (if Within(ek, n) then 0 else 1)
  {
    var live := LiveKeys(arr, node);
    InsideIs(arr, node, ek, n);
    OutsideCount(live + {ek}, n);
    if Within(ek, n) {
      assert Outside(live + {ek}, n) == Outside(live, n);
    } else {
      assert Outside(live + {ek}, n) == Outside(live, n) + {ek};
    }
  }

  lemma LiveCount(arr: seq<Val>, node: seq<Node>)
    requires forall i :: 0 <= i < |node| ==> !Within(node[i].key, |arr|)
    ensures |LiveKeys(arr, node)| == |ArrayInts(arr)| + |HashKeys(node, 0)|
    ensures ArrayInts(arr) * HashInts(node, 0) == {}
  {
    IntKeysCount(ArrayInts(arr));
    assert IntKeys(ArrayInts(arr)) * HashKeys(node, 0) == {};
  }

  // A key that the table does not have is not counted yet.
  lemma ExtraIsNew(arr: seq<Val>, node: seq<Node>, ek: Key)
    requires |arr| <= MAXASIZE && !Within(ek, |arr|) && forall i: nat :: !Has(node, ek, i)
    ensures ek !in LiveKeys(arr, node)
    ensures ek.IntKey? ==> ek.i !in ArrayInts(arr) + HashInts(node, 0)
    ensures (ArrayInts(arr) + HashInts(node, 0)) * IndexOf(ek) == {}
    ensures InRange(ArrayInts(arr) + HashInts(node, 0) + IndexOf(ek))
  {
    forall i: nat | i < |node| ensures node[i].key != ek { assert !Has(node, ek, i); }
  }

  lemma DisjointCount(a: set<int>, b: set<int>)
    requires a * b == {}
    ensures |a + b| == |a| + |b|
  {}

  lemma NoneBeyond(node: seq<Node>)
    ensures HashKeys(node, |node|) == {} && HashInts(node, |node|) == {}
  {}

  // One node further down.
  lemma HashStep(node: seq<Node>, i: nat)
    requires i < |node| && Unique(node) && LiveProper(node)
    ensures node[i].val == Nil ==> HashKeys(node, i) == HashKeys(node, i + 1) && HashInts(node, i) == HashInts(node, i + 1)
    ensures node[i].val != Nil ==>
              |HashKeys(node, i)| == |HashKeys(node, i + 1)| + 1 &&
              HashInts(node, i) == HashInts(node, i + 1) + IndexOf(node[i].key) &&
              HashInts(node, i + 1) * IndexOf(node[i].key) == {}
  {
    if node[i].val == Nil {
      assert HashKeys(node, i) == HashKeys(node, i + 1);
    } else {
      assert HashKeys(node, i) == HashKeys(node, i + 1) + {node[i].key};
      assert node[i].key !in HashKeys(node, i + 1);
      assert HashInts(node, i) == HashInts(node, i + 1) + IndexOf(node[i].key);
      forall k | k in HashInts(node, i + 1) ensures IntKey(k) in HashKeys(node, i + 1) {}
    }
  }
}
