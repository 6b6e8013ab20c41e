// What entering a key changes for lookups and for the number of nodes in use.
module TableFind {
  import opened TableNodes

  ghost function UsedNodes(node: seq<Node>): set<nat> { set i: nat | i < |node| && node[i].key != NilKey }

  ghost predicate SameValues(node: seq<Node>, node': seq<Node>) {
    forall q :: Proper(q) ==> Find(node', q) == Find(node, q)
  }

  // Two vectors agree on every key if each entry of one is found in the other.
  lemma ValuesFrom(h: Hash, node: seq<Node>, l: Layout, node': seq<Node>, l': Layout)
    requires HashOK(h, node, l) && HashOK(h, node', l')
    requires forall i: nat :: i < |node| && node[i].val != Nil ==> exists j: nat :: Has(node', node[i].key, j) && node'[j].val == node[i].val
    requires forall i: nat :: i < |node'| && node'[i].val != Nil ==> exists j: nat :: Has(node, node'[i].key, j) && node[j].val == node'[i].val
    ensures SameValues(node, node')
  {
    forall q | Proper(q) ensures Find(node', q) == Find(node, q) {
      ValueFrom(h, node, l, node', l', q);
      ValueFrom(h, node', l', node, l, q);
    }
  }

  lemma ValueFrom(h: Hash, node: seq<Node>, l: Layout, node': seq<Node>, l': Layout, q: Key)
    requires HashOK(h, node, l) && HashOK(h, node', l') && Proper(q)
    requires forall i: nat :: i < |node| && node[i].val != Nil ==> exists j: nat :: Has(node', node[i].key, j) && node'[j].val == node[i].val
    ensures Find(node, q) != Nil ==> Find(node', q) == Find(node, q)
  {
    if Find(node, q) != Nil {
      var i: nat :| Has(node, q, i);
      FindIs(h, node, l, q, i);
      var j: nat :| Has(node', node[i].key, j) && node'[j].val == node[i].val;
      FindIs(h, node', l', q, j);
    }
  }

  lemma PlaceFinds(h: Hash, node: seq<Node>, l: Layout, mp: nat, k: Key)
    requires HashOK(h, node, l) && Proper(k) && mp == MainPos(h, k, |node|) && node[mp].val == Nil
    requires forall i: nat :: !Has(node, k, i)
    ensures var node' := node[mp := node[mp].(key := k)];
            HashOK(h, node', l) && SameValues(node, node') && |UsedNodes(node')| <= |UsedNodes(node)| + 1
  {
    var node' := node[mp := node[mp].(key := k)];
    PlaceHere(h, node, l, mp, k);
    hide HashOK;
    forall i: nat | i < |node| && node[i].val != Nil ensures Has(node', node[i].key, i) && node'[i].val == node[i].val {}
    forall i: nat | i < |node'| && node'[i].val != Nil ensures Has(node, node'[i].key, i) && node[i].val == node'[i].val {}
    ValuesFrom(h, node, l, node', l);
    OneMore(node, node', mp);
  }

  lemma OneMore(node: seq<Node>, node': seq<Node>, n: nat)
    requires |node'| == |node| && forall i :: 0 <= i < |node| && i != n && node'[i].key != NilKey ==> node[i].key != NilKey
    ensures |UsedNodes(node')| <= |UsedNodes(node)| + 1
  {
    FewerOrSame(UsedNodes(node'), UsedNodes(node) + {n});
  }

  lemma InsertFinds(h: Hash, node: seq<Node>, l: Layout, mp: nat, n: nat, k: Key)
    requires HashOK(h, node, l) && Proper(k) && mp == MainPos(h, k, |node|) && Proper(node[mp].key)
    requires MainPos(h, node[mp].key, |node|) == mp && n < |node| && node[n].key == NilKey
    requires forall i: nat :: !Has(node, k, i)
    ensures var node' := node[n := Node(k, Nil, node[mp].next)][mp := node[mp].(next := n)];
            var l' := Layout(l.path[n := l.path[mp]], l.ord[n := Between(node, l, mp)]);
            HashOK(h, node', l') && SameValues(node, node') && |UsedNodes(node')| <= |UsedNodes(node)| + 1
  {
    var node' := node[n := Node(k, Nil, node[mp].next)][mp := node[mp].(next := n)];
    var l' := Layout(l.path[n := l.path[mp]], l.ord[n := Between(node, l, mp)]);
    InsertBehind(h, node, l, mp, n, k);
    UnusedIsEmpty(h, node, l, n);
    hide HashOK;
    forall i: nat | i < |node| && node[i].val != Nil ensures Has(node', node[i].key, i) && node'[i].val == node[i].val {}
    forall i: nat | i < |node'| && node'[i].val != Nil ensures Has(node, node'[i].key, i) && node[i].val == node'[i].val {}
    ValuesFrom(h, node, l, node', l');
    OneMore(node, node', n);
  }

  lemma LayoutSize(h: Hash, node: seq<Node>, l: Layout)
    requires HashOK(h, node, l)
    ensures |l.path| == |node| == |l.ord| && ChainsOK(node, l)
  {}

  lemma UnusedIsEmpty(h: Hash, node: seq<Node>, l: Layout, n: nat)
    requires HashOK(h, node, l) && n < |node| && node[n].key == NilKey
    ensures node[n] == Node(NilKey, Nil, NULL)
  {}

  lemma MoveFinds(h: Hash, node: seq<Node>, l: Layout, mp: nat, n: nat, prev: nat, k: Key)
    requires HashOK(h, node, l) && Proper(k) && mp == MainPos(h, k, |node|) && Proper(node[mp].key)
    requires MainPos(h, node[mp].key, |node|) != mp && n < |node| && node[n].key == NilKey
    requires prev < |node| && node[prev].next == mp && forall i: nat :: !Has(node, k, i)
    ensures var node' := node[prev := node[prev].(next := n)][n := node[mp]][mp := Node(k, Nil, NULL)];
            var l' := Layout(l.path[n := l.path[mp]][mp := mp], l.ord[n := l.ord[mp]]);
            HashOK(h, node', l') && SameValues(node, node') && |UsedNodes(node')| <= |UsedNodes(node)| + 1
  {
    hide HashOK, MainPos, Find;
    var node' := node[prev := node[prev].(next := n)][n := node[mp]][mp := Node(k, Nil, NULL)];
    LayoutSize(h, node, l);
    var l' := Layout(l.path[n := l.path[mp]][mp := mp], l.ord[n := l.ord[mp]]);
    MoveAway(h, node, l, mp, n, prev, k);
    UnusedIsEmpty(h, node, l, n);
    PrevUsed(h, node, l, prev, n, mp);
    forall i: nat | i < |node| && node[i].val != Nil ensures exists j: nat :: Has(node', node[i].key, j) && node'[j].val == node[i].val {
      var j: nat := if i == mp then n else i;
      assert Has(node', node[i].key, j) && node'[j].val == node[i].val;
    }
    forall i: nat | i < |node'| && node'[i].val != Nil ensures exists j: nat :: Has(node, node'[i].key, j) && node[j].val == node'[i].val {
      var j: nat := if i == n then mp else i;
      assert Has(node, node'[i].key, j) && node[j].val == node'[i].val;
    }
    ValuesFrom(h, node, l, node', l');
    OneMore(node, node', n);
  }

  lemma PrevUsed(h: Hash, node: seq<Node>, l: Layout, prev: nat, n: nat, mp: nat)
    requires HashOK(h, node, l) && prev < |node| && n < |node| && node[n].key == NilKey && node[prev].next == mp
    requires mp < |node| && Proper(node[mp].key)
    ensures prev != n && prev != mp
  {
    assert ChainAt(node, l, prev);
  }

  // Fewer nodes in use than nodes: one was never used.
  lemma SomeUnused(node: seq<Node>)
    requires |UsedNodes(node)| < |node|
    ensures exists i: nat :: i < |node| && node[i].key == NilKey
  {
    if forall i: nat :: i < |node| ==> node[i].key != NilKey { AllUsed(node); }
  }

  lemma {:induction false} AllUsed(node: seq<Node>)
    requires forall i: nat :: i < |node| ==> node[i].key != NilKey
    ensures |UsedNodes(node)| == |node|
    decreases |node|
  {
    if node == [] {
      assert UsedNodes(node) == {};
    } else {
      var front := node[..|node| - 1];
      AllUsed(front);
      assert UsedNodes(node) == UsedNodes(front) + {|front|};
    }
  }

  lemma StoreFinds(h: Hash, node: seq<Node>, l: Layout, i: nat, v: Val)
    requires HashOK(h, node, l) && i < |node| && Proper(node[i].key)
    ensures var node' := node[i := node[i].(val := v)];
            HashOK(h, node', l) && UsedNodes(node') == UsedNodes(node) &&
            forall q :: Proper(q) ==> Find(node', q) == if q == node[i].key then v else Find(node, q)
  {
    var node' := node[i := node[i].(val := v)];
    StoreKeeps(h, node, l, i, v);
    assert UsedNodes(node') == UsedNodes(node);
    forall q | Proper(q) ensures Find(node', q) == if q == node[i].key then v else Find(node, q) {
      assert forall j: nat :: Has(node', q, j) <==> Has(node, q, j);
      if q == node[i].key {
        assert Has(node', q, i);
        FindIs(h, node', l, q, i);
      } else if j: nat :| Has(node, q, j) {
        FindIs(h, node, l, q, j);
        FindIs(h, node', l, q, j);
      }
    }
  }

  lemma KillFinds(h: Hash, node: seq<Node>, l: Layout, i: nat, id: int)
    requires HashOK(h, node, l) && i < |node| && node[i].val == Nil && node[i].key == ObjKey(id)
    ensures var node' := node[i := node[i].(key := DeadKey(id))]; HashOK(h, node', l) && SameValues(node, node')
  {
    var node' := node[i := node[i].(key := DeadKey(id))];
    KillKeeps(h, node, l, i, id);
    hide HashOK;
    forall j: nat | j < |node| && node[j].val != Nil ensures Has(node', node[j].key, j) && node'[j].val == node[j].val {}
    forall j: nat | j < |node'| && node'[j].val != Nil ensures Has(node, node'[j].key, j) && node[j].val == node'[j].val {}
    ValuesFrom(h, node, l, node', l);
  }

  lemma EmptyFinds(node: seq<Node>)
    requires forall i :: 0 <= i < |node| ==> node[i] == Node(NilKey, Nil, NULL)
    ensures UsedNodes(node) == {} && forall q :: Proper(q) ==> Find(node, q) == Nil
  {}
}
