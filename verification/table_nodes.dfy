// The hash part of a table (ltable.c): a chained scatter table with Brent's variation, kept in
// one vector of nodes.
module TableNodes {

  // ----- keys, values, nodes -----

  // Numbers with an integer value are IntKey, all other keys ObjKey.  DeadKey: the key of a removed
  // entry whose object the collector has freed.
  datatype Key = NilKey | NaNKey | IntKey(i: int) | ObjKey(id: int) | DeadKey(id: int)

  datatype Val = Nil | V(id: int)

  // next: the index of the next node, or NULL
  datatype Node = Node(key: Key, val: Val, next: int)

  const NULL: int := -1

  predicate Proper(k: Key) { k.IntKey? || k.ObjKey? }

  // What a key was before it died.
  function Raw(k: Key): Key { if k.DeadKey? then ObjKey(k.id) else k }

  // The hash values of keys, and which keys are hashed with a mask (strings and booleans).
  datatype Hash = Hash(of: Key -> nat, masked: Key -> bool)

  // mainposition; the modulus of hashmod is (sizenode - 1) | 1, the size being a power of two
  function MainPos(h: Hash, k: Key, size: nat): (p: nat)
    requires size > 0
    ensures p < size
  {
    if h.masked(k) then h.of(k) % size else h.of(k) % (if size == 1 then 1 else size - 1)
  }

  // ----- chains -----

  // Ghost layout of the chains: nodes with the same 'path' form one chain, in the order of 'ord';
  // a path is named after its first node.
  datatype Layout = Layout(path: seq<nat>, ord: seq<real>)

  ghost predicate ChainAt(node: seq<Node>, l: Layout, i: nat)
    requires i < |node| == |l.path| == |l.ord|
  {
    var j := node[i].next;
    l.path[i] < |node| && l.path[l.path[i]] == l.path[i] && l.ord[l.path[i]] <= l.ord[i] &&
    (j == NULL ==> forall q :: 0 <= q < |node| && l.path[q] == l.path[i] ==> l.ord[q] <= l.ord[i]) &&
    (j != NULL ==>
       0 <= j < |node| && l.path[j] == l.path[i] && l.ord[i] < l.ord[j] &&
       forall q :: 0 <= q < |node| && l.path[q] == l.path[i] && l.ord[q] > l.ord[i] ==> l.ord[q] >= l.ord[j])
  }

  ghost predicate ChainsOK(node: seq<Node>, l: Layout) {
    |node| == |l.path| == |l.ord| &&
    (forall i :: 0 <= i < |node| ==> ChainAt(node, l, i)) &&
    forall i, j :: 0 <= i < |node| && 0 <= j < |node| && l.path[i] == l.path[j] && l.ord[i] == l.ord[j] ==> i == j
  }

  // p can be reached from m.
  ghost predicate OnChain(l: Layout, m: nat, p: nat)
    requires m < |l.path| == |l.ord| && p < |l.path|
  {
    l.path[p] == l.path[m] && l.ord[m] <= l.ord[p]
  }

  // The nodes after i.
  ghost function After(l: Layout, i: nat): set<nat>
    requires i < |l.path| == |l.ord|
  {
    set q: nat | q < |l.path| && l.path[q] == l.path[i] && l.ord[q] > l.ord[i]
  }

  // k steps along the links
  ghost function Walk(node: seq<Node>, i: nat, k: nat): int
    requires i < |node|
    decreases k
  {
    if k == 0 then i
    else if 0 <= node[i].next < |node| then Walk(node, node[i].next, k - 1)
    else NULL
  }

  lemma StepAfter(node: seq<Node>, l: Layout, i: nat)
    requires ChainsOK(node, l) && i < |node| && node[i].next != NULL
    ensures 0 <= node[i].next < |node| && After(l, node[i].next) < After(l, i)
  {
    assert ChainAt(node, l, i);
    var j: nat := node[i].next;
    assert j in After(l, i) && j !in After(l, j);
  }

  // A node on the chain from m is m itself or on the chain from its successor.
  lemma StepChain(node: seq<Node>, l: Layout, m: nat, p: nat)
    requires ChainsOK(node, l) && m < |node| && p < |node| && OnChain(l, m, p)
    ensures p == m || (0 <= node[m].next < |node| && OnChain(l, node[m].next, p))
  {
    assert ChainAt(node, l, m);
  }

  // Being on the chain is being reached by following the links, in at most as many steps as there
  // are nodes behind: chains have no cycles.
  lemma ChainIsWalk(node: seq<Node>, l: Layout, m: nat, p: nat)
    requires ChainsOK(node, l) && m < |node| && p < |node|
    ensures OnChain(l, m, p) <==> exists k: nat :: k <= |After(l, m)| && Walk(node, m, k) == p
  {
    if OnChain(l, m, p) {
      var k := ChainWalked(node, l, m, p);
    }
    if k: nat :| k <= |After(l, m)| && Walk(node, m, k) == p {
      WalkOnChain(node, l, m, k);
    }
  }

  lemma {:induction false} ChainWalked(node: seq<Node>, l: Layout, m: nat, p: nat) returns (k: nat)
    requires ChainsOK(node, l) && m < |node| && p < |node| && OnChain(l, m, p)
    ensures k <= |After(l, m)| && Walk(node, m, k) == p
    decreases |After(l, m)|
  {
    if p == m {
      k := 0;
    } else {
      StepChain(node, l, m, p);
      StepAfter(node, l, m);
      Fewer(After(l, node[m].next), After(l, m));
      k := ChainWalked(node, l, node[m].next, p);
      k := k + 1;
    }
  }

  lemma Pick<T>(s: set<T>) returns (x: T)
    requires s != {}
    ensures x in s
  {
    x :| x in s;
  }

  lemma Fewer<T>(a: set<T>, b: set<T>)
    requires a < b
    ensures |a| < |b|
  {
    var x :| x in b && x !in a;
    FewerOrSame(a, b - {x});
  }

  lemma FewerOrSame<T>(a: set<T>, b: set<T>)
    requires a <= b
    ensures |a| <= |b|
    decreases |a|
  {
    if a != {} {
      var x :| x in a;
      FewerOrSame(a - {x}, b - {x});
    }
  }

  lemma {:induction false} WalkOnChain(node: seq<Node>, l: Layout, m: nat, k: nat)
    requires ChainsOK(node, l) && m < |node| && Walk(node, m, k) != NULL
    ensures 0 <= Walk(node, m, k) < |node| && OnChain(l, m, Walk(node, m, k))
    decreases k
  {
    assert ChainAt(node, l, m);
    if k > 0 { WalkOnChain(node, l, node[m].next, k - 1); }
  }

  // ----- keys on their chains -----

  // A key is on the chain from its main position, and stays there when it dies.
  ghost predicate Reachable(h: Hash, node: seq<Node>, l: Layout)
    requires |node| == |l.path| == |l.ord|
  {
    forall i :: 0 <= i < |node| && node[i].key != NilKey ==> OnChain(l, MainPos(h, Raw(node[i].key), |node|), i)
  }

  // A node that holds a key out of its main position is the main position of no key.
  ghost predicate Brent(h: Hash, node: seq<Node>) {
    forall i, j :: 0 <= i < |node| && 0 <= j < |node| && node[i].key != NilKey && node[j].key != NilKey ==>
      MainPos(h, Raw(node[i].key), |node|) != i ==> MainPos(h, Raw(node[j].key), |node|) != i
  }

  // A key that died and was entered again comes before its dead nodes.
  ghost predicate LiveFirst(node: seq<Node>, l: Layout)
    requires |node| == |l.ord|
  {
    forall i, j :: 0 <= i < |node| && 0 <= j < |node| && node[i].key.ObjKey? && node[j].key == DeadKey(node[i].key.id) ==> l.ord[i] < l.ord[j]
  }

  ghost predicate Unique(node: seq<Node>) {
    forall i, j :: 0 <= i < |node| && 0 <= j < |node| && Proper(node[i].key) && node[i].key == node[j].key ==> i == j
  }

  ghost predicate LiveProper(node: seq<Node>) {
    forall i :: 0 <= i < |node| && node[i].val != Nil ==> Proper(node[i].key)
  }

  // Nodes never used are on no chain.
  ghost predicate UnusedAlone(node: seq<Node>, l: Layout)
    requires |node| == |l.path|
  {
    (forall i :: 0 <= i < |node| && node[i].key == NilKey ==> node[i].next == NULL && l.path[i] == i) &&
    forall i, q :: 0 <= i < |node| && 0 <= q < |node| && node[i].key == NilKey && l.path[q] == i ==> q == i
  }

  ghost predicate HashOK(h: Hash, node: seq<Node>, l: Layout) {
    |node| > 0 && ChainsOK(node, l) && Reachable(h, node, l) && Brent(h, node) && Unique(node) && LiveProper(node) &&
    UnusedAlone(node, l) && LiveFirst(node, l)
  }

  ghost predicate Has(node: seq<Node>, k: Key, i: nat) { i < |node| && node[i].key == k }

  // The value under a key.
  ghost function Find(node: seq<Node>, k: Key): Val {
    if exists i: nat :: Has(node, k, i) then
      var i: nat :| Has(node, k, i); node[i].val
    else Nil
  }

  lemma FindIs(h: Hash, node: seq<Node>, l: Layout, k: Key, i: nat)
    requires HashOK(h, node, l) && Proper(k) && Has(node, k, i)
    ensures Find(node, k) == node[i].val
  {}

  // No key's main position is a node never used.
  lemma UnusedIsNoMain(h: Hash, node: seq<Node>, l: Layout, n: nat, i: nat)
    requires HashOK(h, node, l) && n < |node| && node[n].key == NilKey && i < |node| && node[i].key != NilKey
    ensures MainPos(h, Raw(node[i].key), |node|) != n
  {}

  // ----- the three ways to enter a key -----

  // Its main position is free, or holds an entry that was removed.
  lemma PlaceHere(h: Hash, node: seq<Node>, l: Layout, mp: nat, k: Key)
    requires HashOK(h, node, l) && Proper(k) && mp == MainPos(h, k, |node|) && node[mp].val == Nil
    requires forall i: nat :: !Has(node, k, i)
    ensures HashOK(h, node[mp := node[mp].(key := k)], l)
  {
    var node' := node[mp := node[mp].(key := k)];
    forall i | 0 <= i < |node'| ensures ChainAt(node', l, i) { assert ChainAt(node, l, i); }
    forall i | 0 <= i < |node'| && Proper(node'[i].key) && i != mp ensures node'[i].key != k { assert !Has(node, k, i); }
    PlacedFirst(h, node, l, mp, k);
    hide ChainsOK, LiveFirst, Raw;
  }

  lemma PlacedFirst(h: Hash, node: seq<Node>, l: Layout, mp: nat, k: Key)
    requires ChainsOK(node, l) && |node| > 0 && Reachable(h, node, l) && LiveFirst(node, l) && Proper(k) &&
             mp == MainPos(h, k, |node|)
    requires forall i: nat :: !Has(node, k, i)
    ensures LiveFirst(node[mp := node[mp].(key := k)], l)
  {
    hide MainPos, ChainAt;
    forall j | 0 <= j < |node| && j != mp && node[j].key.DeadKey? && Raw(node[j].key) == k ensures l.ord[mp] < l.ord[j] {
      assert OnChain(l, mp, j);
    }
  }

  ghost function Between(node: seq<Node>, l: Layout, mp: nat): real
    requires ChainsOK(node, l) && mp < |node|
  {
    assert ChainAt(node, l, mp);
    if node[mp].next == NULL then l.ord[mp] + 1.0 else (l.ord[mp] + l.ord[node[mp].next]) / 2.0
  }

  // The colliding node is in its main position: the new one goes behind it, to an unused node.
  lemma InsertBehind(h: Hash, node: seq<Node>, l: Layout, mp: nat, n: nat, k: Key)
    requires HashOK(h, node, l) && Proper(k) && mp == MainPos(h, k, |node|) && Proper(node[mp].key)
    requires MainPos(h, node[mp].key, |node|) == mp && n < |node| && node[n].key == NilKey
    requires forall i: nat :: !Has(node, k, i)
    ensures var node' := node[n := Node(k, Nil, node[mp].next)][mp := node[mp].(next := n)];
            var l' := Layout(l.path[n := l.path[mp]], l.ord[n := Between(node, l, mp)]);
            HashOK(h, node', l')
  {
    var node' := node[n := Node(k, Nil, node[mp].next)][mp := node[mp].(next := n)];
    var l' := Layout(l.path[n := l.path[mp]], l.ord[n := Between(node, l, mp)]);
    hide ChainsOK, Reachable, Brent, Unique, LiveProper, UnusedAlone, LiveFirst, Between;
    BetweenAbove(node, l, mp);
    InsertChains(h, node, l, mp, n, node', l', k);
    InsertKeys(h, node, l, mp, n, node', l', k);
  }

  lemma BetweenAbove(node: seq<Node>, l: Layout, mp: nat)
    requires ChainsOK(node, l) && mp < |node|
    ensures l.ord[mp] < Between(node, l, mp)
    ensures forall q :: 0 <= q < |node| && l.path[q] == l.path[mp] && l.ord[q] > l.ord[mp] ==> Between(node, l, mp) < l.ord[q]
  {
    assert ChainAt(node, l, mp);
  }

  lemma InsertKeys(h: Hash, node: seq<Node>, l: Layout, mp: nat, n: nat, node': seq<Node>, l': Layout, k: Key)
    requires HashOK(h, node, l) && Proper(k) && mp == MainPos(h, k, |node|) && Proper(node[mp].key)
    requires MainPos(h, node[mp].key, |node|) == mp && n < |node| && node[n].key == NilKey
    requires forall i: nat :: !Has(node, k, i)
    requires node' == node[n := Node(k, Nil, node[mp].next)][mp := node[mp].(next := n)]
    requires |l'.ord| == |node| && l'.path == l.path[n := l.path[mp]] && l'.ord == l.ord[n := l'.ord[n]] &&
             l'.ord[n] > l.ord[mp]
    requires forall q :: 0 <= q < |node| && l.path[q] == l.path[mp] && l.ord[q] > l.ord[mp] ==> l'.ord[n] < l.ord[q]
    ensures Reachable(h, node', l') && Brent(h, node') && Unique(node') && LiveProper(node') &&
            UnusedAlone(node', l') && LiveFirst(node', l')
  {
    hide OnChain, MainPos, Brent, Unique, LiveProper, Raw, Reachable, LiveFirst, UnusedAlone;
    NotYetThere(h, node, l, n, k);
    InsertedAlone(node, l, mp, n, node', l');
    InsertedReachable(h, node, l, mp, n, node', l', k);
    InsertedRest(h, node, l, mp, n, node', k);
    InsertedFirst(h, node, l, mp, n, node', l', k);
  }

  lemma NotYetThere(h: Hash, node: seq<Node>, l: Layout, n: nat, k: Key)
    requires HashOK(h, node, l) && n < |node| && node[n].key == NilKey && forall i: nat :: !Has(node, k, i)
    ensures forall i :: 0 <= i < |node| && node[i].key != NilKey ==> MainPos(h, Raw(node[i].key), |node|) != n && node[i].key != k
  {
    forall i | 0 <= i < |node| && node[i].key != NilKey ensures MainPos(h, Raw(node[i].key), |node|) != n && node[i].key != k {
      UnusedIsNoMain(h, node, l, n, i);
      assert !Has(node, k, i);
    }
  }

  lemma InsertedAlone(node: seq<Node>, l: Layout, mp: nat, n: nat, node': seq<Node>, l': Layout)
    requires ChainsOK(node, l) && |node'| == |node| && mp < |node| && n < |node| && n != mp &&
             l'.path == l.path[n := l.path[mp]]
    requires UnusedAlone(node, l) && node[mp].key != NilKey && node'[n].key != NilKey && node'[mp].key != NilKey
    requires forall i :: 0 <= i < |node| && i != n && i != mp ==> node'[i] == node[i]
    ensures UnusedAlone(node', l')
  {
    assert ChainAt(node, l, mp);
  }

  lemma InsertedReachable(h: Hash, node: seq<Node>, l: Layout, mp: nat, n: nat, node': seq<Node>, l': Layout, k: Key)
    requires |node| == |l.path| == |l.ord| == |node'| == |l'.ord| && mp < |node| && n < |node| && n != mp &&
             mp == MainPos(h, k, |node|)
    requires Reachable(h, node, l) && Proper(k)
    requires forall i :: 0 <= i < |node| && node[i].key != NilKey ==> MainPos(h, Raw(node[i].key), |node|) != n
    requires node'[n].key == k && (forall i :: 0 <= i < |node| && i != n ==> node'[i].key == node[i].key) &&
             node[n].key == NilKey
    requires l'.path == l.path[n := l.path[mp]] && l'.ord == l.ord[n := l'.ord[n]] && l'.ord[n] > l.ord[mp]
    ensures Reachable(h, node', l')
  {
    hide MainPos;
    forall i | 0 <= i < |node'| && node'[i].key != NilKey ensures OnChain(l', MainPos(h, Raw(node'[i].key), |node'|), i) {
      if i != n { assert OnChain(l, MainPos(h, Raw(node[i].key), |node|), i); }
    }
  }

  lemma InsertedRest(h: Hash, node: seq<Node>, l: Layout, mp: nat, n: nat, node': seq<Node>, k: Key)
    requires Brent(h, node) && Unique(node) && LiveProper(node) && Proper(k) && mp < |node| == |node'| && n < |node| &&
             mp == MainPos(h, k, |node|)
    requires node[mp].key != NilKey && MainPos(h, node[mp].key, |node|) == mp && Proper(node[mp].key) && n != mp
    requires forall i :: 0 <= i < |node| && node[i].key != NilKey ==> MainPos(h, Raw(node[i].key), |node|) != n && node[i].key != k
    requires node'[n].key == k && (forall i :: 0 <= i < |node| && i != n ==> node'[i].key == node[i].key && node'[i].val == node[i].val)
    ensures Brent(h, node') && Unique(node') && LiveProper(node')
  {
    hide MainPos;
  }

  lemma InsertedFirst(h: Hash, node: seq<Node>, l: Layout, mp: nat, n: nat, node': seq<Node>, l': Layout, k: Key)
    requires |node| == |l.path| == |l.ord| == |node'| == |l'.ord| && mp < |node| && n < |node| && Proper(k) &&
             mp == MainPos(h, k, |node|)
    requires Reachable(h, node, l) && LiveFirst(node, l) && Proper(node[mp].key)
    requires forall i :: 0 <= i < |node| && node[i].key != NilKey ==> node[i].key != k
    requires node'[n].key == k && forall i :: 0 <= i < |node| && i != n ==> node'[i].key == node[i].key && l'.ord[i] == l.ord[i]
    requires forall q :: 0 <= q < |node| && l.path[q] == l.path[mp] && l.ord[q] > l.ord[mp] ==> l'.ord[n] < l.ord[q]
    requires forall i, j :: 0 <= i < |node| && 0 <= j < |node| && l.path[i] == l.path[j] && l.ord[i] == l.ord[j] ==> i == j
    ensures LiveFirst(node', l')
  {
    hide MainPos;
    forall j | 0 <= j < |node| && node[j].key.DeadKey? && Raw(node[j].key) == k ensures l'.ord[n] < l.ord[j] {
      assert OnChain(l, mp, j) && j != mp;
    }
  }

  lemma InsertChains(h: Hash, node: seq<Node>, l: Layout, mp: nat, n: nat, node': seq<Node>, l': Layout, k: Key)
    requires HashOK(h, node, l) && mp < |node| && n < |node| && n != mp && node[n].key == NilKey
    requires node' == node[n := Node(k, Nil, node[mp].next)][mp := node[mp].(next := n)]
    requires l' == Layout(l.path[n := l.path[mp]], l.ord[n := Between(node, l, mp)])
    ensures ChainsOK(node', l')
  {
    assert ChainAt(node, l, mp);
    BetweenAbove(node, l, mp);
    forall q | 0 <= q < |node| ensures (q != n ==> l.path[q] != n) && node[q].next != n { assert ChainAt(node, l, q); }
    hide ChainAt, Between;
    forall i | 0 <= i < |node| ensures ChainAt(node', l', i) {
      InsertedAt(node, l, mp, n, node', l', k, i);
    }
  }

  lemma InsertedAt(node: seq<Node>, l: Layout, mp: nat, n: nat, node': seq<Node>, l': Layout, k: Key, i: nat)
    requires ChainsOK(node, l) && mp < |node| && n < |node| && n != mp && i < |node|
    requires l.path[n] == n && forall q :: 0 <= q < |node| ==> (q != n ==> l.path[q] != n) && node[q].next != n
    requires node' == node[n := Node(k, Nil, node[mp].next)][mp := node[mp].(next := n)]
    requires l' == Layout(l.path[n := l.path[mp]], l.ord[n := Between(node, l, mp)])
    ensures ChainAt(node', l', i)
  {
    assert ChainAt(node, l, mp) && ChainAt(node, l, i);
    hide ChainsOK;
  }

  // The colliding node is out of its main position: it moves to an unused node, which takes its
  // place in the chain, and the new key gets its main position.
  lemma MoveAway(h: Hash, node: seq<Node>, l: Layout, mp: nat, n: nat, prev: nat, k: Key)
    requires HashOK(h, node, l) && Proper(k) && mp == MainPos(h, k, |node|) && Proper(node[mp].key)
    requires MainPos(h, node[mp].key, |node|) != mp && n < |node| && node[n].key == NilKey
    requires prev < |node| && node[prev].next == mp && forall i: nat :: !Has(node, k, i)
    ensures var node' := node[prev := node[prev].(next := n)][n := node[mp]][mp := Node(k, Nil, NULL)];
            var l' := Layout(l.path[n := l.path[mp]][mp := mp], l.ord[n := l.ord[mp]]);
            HashOK(h, node', l')
  {
    var node' := node[prev := node[prev].(next := n)][n := node[mp]][mp := Node(k, Nil, NULL)];
    var l' := Layout(l.path[n := l.path[mp]][mp := mp], l.ord[n := l.ord[mp]]);
    assert ChainAt(node, l, prev);
    assert prev != n && prev != mp && n != mp;
    MoveChains(h, node, l, mp, n, prev, node', l', k);
    MoveKeys(h, node, l, mp, n, prev, node', l', k);
  }

  lemma MoveKeys(h: Hash, node: seq<Node>, l: Layout, mp: nat, n: nat, prev: nat, node': seq<Node>, l': Layout, k: Key)
    requires HashOK(h, node, l) && Proper(k) && mp == MainPos(h, k, |node|) && Proper(node[mp].key)
    requires MainPos(h, node[mp].key, |node|) != mp && n < |node| && node[n].key == NilKey && n != mp
    requires prev < |node| && node[prev].next == mp && prev != n && prev != mp && forall i: nat :: !Has(node, k, i)
    requires node' == node[prev := node[prev].(next := n)][n := node[mp]][mp := Node(k, Nil, NULL)]
    requires l' == Layout(l.path[n := l.path[mp]][mp := mp], l.ord[n := l.ord[mp]])
    ensures Reachable(h, node', l') && Brent(h, node') && Unique(node') && LiveProper(node') &&
            UnusedAlone(node', l') && LiveFirst(node', l')
  {
    assert ChainAt(node, l, mp) && ChainAt(node, l, prev);
    assert l.path[mp] != mp;
    forall i | 0 <= i < |node| && node[i].key != NilKey
      ensures MainPos(h, Raw(node[i].key), |node|) != n && MainPos(h, Raw(node[i].key), |node|) != mp &&
              Raw(node[i].key) != k
    {
      UnusedIsNoMain(h, node, l, n, i);
    }
    hide ChainsOK, OnChain, MainPos, Brent, Unique, LiveProper, UnusedAlone, LiveFirst;
    MovedReachable(h, node, l, mp, n, node', l', k);
    MovedRest(h, node, l, mp, n, prev, node', l', k);
  }

  lemma MovedRest(h: Hash, node: seq<Node>, l: Layout, mp: nat, n: nat, prev: nat, node': seq<Node>, l': Layout, k: Key)
    requires HashOK(h, node, l) && Proper(k) && mp == MainPos(h, k, |node|) && Proper(node[mp].key)
    requires n < |node| == |l.path| == |l.ord| && node[n].key == NilKey && n != mp && l.path[mp] != mp
    requires prev < |node| && prev != n && prev != mp && node[prev].next == mp
    requires node' == node[prev := node[prev].(next := n)][n := node[mp]][mp := Node(k, Nil, NULL)]
    requires l' == Layout(l.path[n := l.path[mp]][mp := mp], l.ord[n := l.ord[mp]])
    requires forall i :: 0 <= i < |node| && node[i].key != NilKey ==>
               MainPos(h, Raw(node[i].key), |node|) != n && MainPos(h, Raw(node[i].key), |node|) != mp && Raw(node[i].key) != k
    ensures Brent(h, node') && Unique(node') && LiveProper(node') && UnusedAlone(node', l') && LiveFirst(node', l')
  {
    hide ChainsOK, Reachable, OnChain, MainPos;
    MovedAlone(node, l, mp, n, node', l', k);
    hide UnusedAlone;
  }

  lemma MovedAlone(node: seq<Node>, l: Layout, mp: nat, n: nat, node': seq<Node>, l': Layout, k: Key)
    requires |node| == |l.path| == |node'| && mp < |node| && n < |node| && l.path[mp] != mp &&
             l'.path == l.path[n := l.path[mp]][mp := mp]
    requires UnusedAlone(node, l) && node'[n].key != NilKey && node'[mp].key != NilKey
    requires forall i :: 0 <= i < |node| && i != n && i != mp ==> node'[i].key == node[i].key && (node[i].key == NilKey ==> node'[i].next == NULL)
    ensures UnusedAlone(node', l')
  {}

  lemma MovedReachable(h: Hash, node: seq<Node>, l: Layout, mp: nat, n: nat, node': seq<Node>, l': Layout, k: Key)
    requires |node| == |l.path| == |l.ord| == |node'| && mp < |node| && n < |node| && n != mp &&
             mp == MainPos(h, k, |node|)
    requires Reachable(h, node, l) && Proper(node[mp].key)
    requires forall i :: 0 <= i < |node| && node[i].key != NilKey ==>
               MainPos(h, Raw(node[i].key), |node|) != n && MainPos(h, Raw(node[i].key), |node|) != mp
    requires Proper(k) && node'[n].key == node[mp].key && node'[mp].key == k && forall i :: 0 <= i < |node| && i != n && i != mp ==> node'[i].key == node[i].key
    requires l' == Layout(l.path[n := l.path[mp]][mp := mp], l.ord[n := l.ord[mp]])
    ensures Reachable(h, node', l')
  {
    hide MainPos;
    forall i | 0 <= i < |node'| && node'[i].key != NilKey ensures OnChain(l', MainPos(h, Raw(node'[i].key), |node'|), i) {
      if i == n { assert OnChain(l, MainPos(h, Raw(node[mp].key), |node|), mp); }
      else if i != mp { assert OnChain(l, MainPos(h, Raw(node[i].key), |node|), i); }
    }
  }

  lemma MoveChains(h: Hash, node: seq<Node>, l: Layout, mp: nat, n: nat, prev: nat, node': seq<Node>, l': Layout,
                   k: Key)
    requires HashOK(h, node, l) && mp < |node| && n < |node| && n != mp && node[n].key == NilKey
    requires prev < |node| && node[prev].next == mp && prev != n && prev != mp
    requires node' == node[prev := node[prev].(next := n)][n := node[mp]][mp := Node(k, Nil, NULL)]
    requires l' == Layout(l.path[n := l.path[mp]][mp := mp], l.ord[n := l.ord[mp]])
    ensures ChainsOK(node', l')
  {
    Surroundings(h, node, l, mp, n, prev);
    forall i, j | 0 <= i < |node| && 0 <= j < |node| && l'.path[i] == l'.path[j] && l'.ord[i] == l'.ord[j] ensures i == j {
      assert l.path[if i == n then mp else i] == l.path[if j == n then mp else j] || i == mp || j == mp;
    }
    hide ChainAt;
    forall i | 0 <= i < |node| ensures ChainAt(node', l', i) {
      MovedAt(node, l, mp, n, prev, node', l', if i == n then mp else i, i);
    }
  }

  // What is known of the other nodes' chains and links.
  lemma Surroundings(h: Hash, node: seq<Node>, l: Layout, mp: nat, n: nat, prev: nat)
    requires HashOK(h, node, l) && mp < |node| && n < |node| && n != mp && node[n].key == NilKey
    requires prev < |node| && node[prev].next == mp
    ensures l.path[mp] != mp && l.path[n] == n
    ensures forall q :: 0 <= q < |node| ==> l.path[q] != mp && (q != n ==> l.path[q] != n)
    ensures forall q :: 0 <= q < |node| && q != prev ==> node[q].next != mp && node[q].next != n
  {
    hide Reachable, Brent, Unique, LiveProper, LiveFirst;
    assert ChainAt(node, l, prev) && ChainAt(node, l, mp);
    forall i | 0 <= i < |node| ensures l.path[i] != mp && (i != n ==> l.path[i] != n) { assert ChainAt(node, l, i); }
    forall i | 0 <= i < |node| && i != prev ensures node[i].next != mp && node[i].next != n {
      assert ChainAt(node, l, i);
      if node[i].next == mp { OnePredecessor(node, l, prev, i); }
    }
  }

  // i in the new chains is 'was' in the old ones.
  lemma MovedAt(node: seq<Node>, l: Layout, mp: nat, n: nat, prev: nat, node': seq<Node>, l': Layout, was: nat, i: nat)
    requires ChainsOK(node, l) && mp < |node| && n < |node| && n != mp && prev < |node| && prev != n && prev != mp &&
             node[prev].next == mp
    requires |node'| == |node| && node'[n].next == node[mp].next && node'[mp].next == NULL && node'[prev].next == n
    requires forall q :: 0 <= q < |node| && q != n && q != mp && q != prev ==> node'[q].next == node[q].next
    requires l' == Layout(l.path[n := l.path[mp]][mp := mp], l.ord[n := l.ord[mp]])
    requires forall q :: 0 <= q < |node| ==> l.path[q] != mp && (q != n ==> l.path[q] != n)
    requires forall q :: 0 <= q < |node| && q != prev ==> node[q].next != mp && node[q].next != n
    requires i < |node| && was == if i == n then mp else i
    ensures ChainAt(node', l', i)
  {
    assert ChainAt(node, l, was) && ChainAt(node, l, mp);
    hide ChainsOK;
  }

  // No two links lead to the same node.
  lemma OnePredecessor(node: seq<Node>, l: Layout, i: nat, j: nat)
    requires ChainsOK(node, l) && i < |node| && j < |node| && node[i].next == node[j].next != NULL
    ensures i == j
  {
    assert ChainAt(node, l, i) && ChainAt(node, l, j);
  }

  // Storing a value changes no chain.
  lemma StoreKeeps(h: Hash, node: seq<Node>, l: Layout, i: nat, v: Val)
    requires HashOK(h, node, l) && i < |node| && Proper(node[i].key)
    ensures HashOK(h, node[i := node[i].(val := v)], l)
  {
    var node' := node[i := node[i].(val := v)];
    forall q | 0 <= q < |node'| ensures ChainAt(node', l, q) { assert ChainAt(node, l, q); }
  }

  // The collector marks the key of a removed entry dead.
  lemma KillKeeps(h: Hash, node: seq<Node>, l: Layout, i: nat, id: int)
    requires HashOK(h, node, l) && i < |node| && node[i].val == Nil && node[i].key == ObjKey(id)
    ensures HashOK(h, node[i := node[i].(key := DeadKey(id))], l)
  {
    var node' := node[i := node[i].(key := DeadKey(id))];
    forall q | 0 <= q < |node'| ensures ChainAt(node', l, q) { assert ChainAt(node, l, q); }
  }

  // A vector of unused nodes.
  ghost function Empty(size: nat): Layout {
    Layout(seq(size, i requires 0 <= i < size => i as nat), seq(size, i => 0.0))
  }

  lemma EmptyOK(h: Hash, node: seq<Node>)
    requires |node| > 0 && forall i :: 0 <= i < |node| ==> node[i] == Node(NilKey, Nil, NULL)
    ensures HashOK(h, node, Empty(|node|))
  {
    var l := Empty(|node|);
    forall i | 0 <= i < |node| ensures ChainAt(node, l, i) {}
  }
}
