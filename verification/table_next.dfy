// Traversal of a table (luaH_next in ltable.c): every entry once, array part first, even when
// fields are changed or cleared on the way and the collector drops keys of cleared ones.
module TableNext {
  import opened TableNodes
  import opened TableHash

  datatype Next = Entry(k: Key, v: Val) | End | InvalidKey

  function KeyAt(arr: seq<Val>, node: seq<Node>, p: nat): Key
    requires p < |arr| + |node|
  {
    if p < |arr| then IntKey(p + 1) else node[p - |arr|].key
  }

  function ValAt(arr: seq<Val>, node: seq<Node>, p: nat): Val
    requires p < |arr| + |node|
  {
    if p < |arr| then arr[p] else node[p - |arr|].val
  }

  lemma OnePlace(t: Table, p: nat, q: nat)
    requires t.Valid() && p < |t.arr| + |t.node| && q < |t.arr| + |t.node|
    requires KeyAt(t.arr, t.node, p) == KeyAt(t.arr, t.node, q) && Proper(KeyAt(t.arr, t.node, p))
    ensures p == q
  {}

  lemma LiveKeyAt(t: Table, p: nat)
    requires t.Valid() && p < |t.arr| + |t.node| && ValAt(t.arr, t.node, p) != Nil
    ensures var k := KeyAt(t.arr, t.node, p); Proper(k) && t.Lookup(k) == ValAt(t.arr, t.node, p)
  {
    var k := KeyAt(t.arr, t.node, p);
    if p >= |t.arr| {
      t.LiveKey(p - |t.arr|);
      FindIs(t.hash, t.node, t.l, k, p - |t.arr|);
    }
  }

  lemma PlaceOf(t: Table, q: Key) returns (p: nat)
    requires t.Valid() && t.Lookup(q) != Nil
    ensures p < |t.arr| + |t.node| && KeyAt(t.arr, t.node, p) == q && ValAt(t.arr, t.node, p) == t.Lookup(q)
  {
    if t.InArrayRange(q) {
      p := q.i - 1;
    } else {
      var i: nat :| Has(t.node, q, i) && t.node[i].val == t.Lookup(q);
      p := i + |t.arr|;
    }
  }

  // ----- where a traversal goes on -----

  // The node holds the key or, if the key has died, what is left of it.
  predicate Matches(node: seq<Node>, k: Key, i: nat) { i < |node| && Raw(node[i].key) == k }

  // The first such node in its chain.
  ghost predicate FirstMatch(node: seq<Node>, l: Layout, k: Key, n: nat) {
    |l.ord| == |node| && Matches(node, k, n) && forall i: nat :: Matches(node, k, i) ==> l.ord[n] <= l.ord[i]
  }

  // The place of a key; -1 begins a traversal.
  ghost predicate From(t: Table, k: Key, from: int)
    reads t
  {
    if k == NilKey then from == -1
    else if t.InArrayRange(k) then from == k.i - 1
    else Proper(k) && from >= |t.arr| && FirstMatch(t.node, t.l, k, from - |t.arr|)
  }

  lemma FromUnique(t: Table, k: Key, from: int, from': int)
    requires t.Valid() && From(t, k, from) && From(t, k, from')
    ensures from == from'
  {
    if k != NilKey && !t.InArrayRange(k) {
      var m, i, j := MainPos(t.hash, k, |t.node|), from - |t.arr|, from' - |t.arr|;
      assert Matches(t.node, k, i) && Matches(t.node, k, j);
      assert OnChain(t.l, m, i) && OnChain(t.l, m, j);
    }
  }

  lemma LiveIsFirst(h: Hash, node: seq<Node>, l: Layout, k: Key, n: nat)
    requires HashOK(h, node, l) && Proper(k) && Has(node, k, n)
    ensures FirstMatch(node, l, k, n)
  {
    hide ChainsOK, Reachable, Brent, LiveProper, UnusedAlone;
    OrderSize(h, node, l);
  }

  lemma OrderSize(h: Hash, node: seq<Node>, l: Layout)
    requires HashOK(h, node, l)
    ensures |l.ord| == |node|
  {}

  // An entry with a value is found under its own key, whatever dead keys there are.
  lemma LiveFrom(t: Table, p: nat)
    requires t.Valid() && p < |t.arr| + |t.node| && ValAt(t.arr, t.node, p) != Nil
    ensures From(t, KeyAt(t.arr, t.node, p), p)
  {
    var k := KeyAt(t.arr, t.node, p);
    LiveKeyAt(t, p);
    if p >= |t.arr| { LiveIsFirst(t.hash, t.node, t.l, k, p - |t.arr|); }
  }

  // The loop of findindex over the chain from the main position.
  method FindMatch(t: Table, k: Key) returns (n: int)
    requires t.Valid() && Proper(k)
    ensures n == NULL ==> forall i: nat :: !Matches(t.node, k, i)
    ensures n != NULL ==> n >= 0 && FirstMatch(t.node, t.l, k, n)
  {
    var m: nat := MainPos(t.hash, k, |t.node|);
    while true
      invariant m < |t.node| && forall i: nat :: Matches(t.node, k, i) ==> OnChain(t.l, m, i)
      decreases After(t.l, m)
    {
      var key := t.node[m].key;
      if key == k || (key.DeadKey? && k.ObjKey? && key.id == k.id) { return m; }
      forall i: nat | Matches(t.node, k, i)
        ensures i != m && t.node[m].next != NULL && 0 <= t.node[m].next < |t.node| && OnChain(t.l, t.node[m].next, i)
      {
        StepChain(t.node, t.l, m, i);
        if i != m { assert ChainAt(t.node, t.l, m); }
      }
      if t.node[m].next == NULL { return NULL; }
      StepAfter(t.node, t.l, m);
      m := t.node[m].next;
    }
  }

  // findindex
  method FindIndex(t: Table, k: Key) returns (found: bool, i: int)
    requires t.Valid() && !k.DeadKey?
    ensures found ==> From(t, k, i) && -1 <= i < |t.arr| + |t.node|
    ensures !found ==> forall from :: !From(t, k, from)
  {
    if k == NilKey { return true, -1; }
    if k.IntKey? && 0 < k.i <= |t.arr| { return true, k.i - 1; }
    if !Proper(k) { return false, 0; }
    var n := FindMatch(t, k);
    if n == NULL { return false, 0; }
    return true, n + |t.arr|;
  }

  // The next place with a value.
  ghost predicate Follows(t: Table, from: int, r: Next, p: int)
    reads t
  {
    -1 <= from < p <= |t.arr| + |t.node| && (forall q: nat :: from < q < p ==> ValAt(t.arr, t.node, q) == Nil) &&
    !r.InvalidKey? && (r.End? <==> p == |t.arr| + |t.node|) &&
    (r.Entry? ==> r.k == KeyAt(t.arr, t.node, p) && r.v == ValAt(t.arr, t.node, p) != Nil)
  }

  // luaH_next; p: where the entry is.
  method TableNext(t: Table, k: Key) returns (r: Next, ghost from: int, ghost p: int)
    requires t.Valid() && !k.DeadKey?
    ensures r.InvalidKey? <==> forall i :: !From(t, k, i)
    ensures !r.InvalidKey? ==> From(t, k, from) && Follows(t, from, r, p)
  {
    hide From, Table.Valid;
    var found, at := FindIndex(t, k);
    from := at;
    if !found { return InvalidKey, 0, 0; }
    var i := at + 1;
    while i < |t.arr|
      invariant from < i <= |t.arr| + |t.node| && forall q: nat :: from < q < i ==> ValAt(t.arr, t.node, q) == Nil
    {
      if t.arr[i] != Nil { return Entry(IntKey(i + 1), t.arr[i]), from, i; }
      i := i + 1;
    }
    i := i - |t.arr|;
    while i < |t.node|
      invariant 0 <= i <= |t.node| && from < i + |t.arr|
      invariant forall q: nat :: from < q < i + |t.arr| ==> ValAt(t.arr, t.node, q) == Nil
    {
      if t.node[i].val != Nil { return Entry(t.node[i].key, t.node[i].val), from, i + |t.arr|; }
      i := i + 1;
    }
    return End, from, |t.arr| + |t.node|;
  }

  // ----- changes during a traversal -----

  // What may happen between two steps: a value is stored in a field that exists (nil clears it),
  // or the collector drops the key of a cleared field.
  datatype Edit = Change(k: Key, v: Val) | Kill(n: nat)

  function Edited(m: map<Key, Val>, e: Edit): map<Key, Val> {
    if e.Change? && e.k in m then Assigned(m, e.k, e.v) else m
  }

  function AllEdited(m: map<Key, Val>, es: seq<Edit>): map<Key, Val> {
    if es == [] then m else Edited(AllEdited(m, es[..|es| - 1]), es[|es| - 1])
  }

  predicate Allowed(es: seq<Edit>) { forall i :: 0 <= i < |es| && es[i].Change? ==> !es[i].k.DeadKey? }

  function EditsAt(edits: seq<seq<Edit>>, i: nat): seq<Edit> { if i < |edits| then edits[i] else [] }

  ghost predicate SameOrDead(k: Key, k': Key) { k' == k || (k.ObjKey? && k' == DeadKey(k.id)) }

  // A later state of the table: keys stay or die where they are, and nothing empty gets a value.
  ghost predicate Later(arr: seq<Val>, node: seq<Node>, arr': seq<Val>, node': seq<Node>) {
    |arr'| == |arr| && |node'| == |node| &&
    (forall i :: 0 <= i < |node| ==> SameOrDead(node[i].key, node'[i].key)) &&
    forall p: nat :: p < |arr| + |node| && ValAt(arr', node', p) != Nil ==> ValAt(arr, node, p) != Nil
  }

  lemma LaterTrans(arr: seq<Val>, node: seq<Node>, arr1: seq<Val>, node1: seq<Node>, arr2: seq<Val>, node2: seq<Node>)
    requires Later(arr, node, arr1, node1) && Later(arr1, node1, arr2, node2)
    ensures Later(arr, node, arr2, node2)
  {
    forall i | 0 <= i < |node| ensures SameOrDead(node[i].key, node2[i].key) {
      assert SameOrDead(node[i].key, node1[i].key) && SameOrDead(node1[i].key, node2[i].key);
    }
  }

  // Dead keys do not lead a traversal astray: its place stays where it is.
  lemma StaysFirst(arr: seq<Val>, node: seq<Node>, arr': seq<Val>, node': seq<Node>, l: Layout, k: Key, n: nat)
    requires Later(arr, node, arr', node') && FirstMatch(node, l, k, n) && Proper(k)
    ensures FirstMatch(node', l, k, n)
  {
    forall i: nat ensures Matches(node', k, i) <==> Matches(node, k, i) {
      if i < |node| { assert SameOrDead(node[i].key, node'[i].key); }
    }
  }

  method Apply(t: Table, e: Edit)
    requires t.Valid() && (e.Change? ==> !e.k.DeadKey?)
    modifies t
    ensures t.Valid() && t.View() == Edited(old(t.View()), e) && t.l == old(t.l)
    ensures Later(old(t.arr), old(t.node), t.arr, t.node)
  {
    hide Table.Valid, Table.Lookup, Later, Without;
    match e {
      case Kill(n) =>
        t.RemoveEntry(n);
        Killed(n, t.arr, old(t.node), t.node);
        assert t.View() == old(t.View());
      case Change(k, v) =>
        var c := t.Get(k);
        var there := match c case Absent => false case InArray(i) => t.arr[i] != Nil case InNode(n) => t.node[n].val != Nil;
        LaterRefl(t.arr, t.node);
        if there {
          t.Store(c, v, k);
          Stored(c, v, old(t.arr), old(t.node), t.arr, t.node);
          assert t.View() == Edited(old(t.View()), e);
        }
    }
  }

  lemma LaterRefl(arr: seq<Val>, node: seq<Node>)
    ensures Later(arr, node, arr, node)
  {}

  lemma Killed(n: nat, arr: seq<Val>, node: seq<Node>, node': seq<Node>)
    requires node' == Without(node, n)
    ensures Later(arr, node, arr, node')
  {}

  lemma Stored(c: Cell, v: Val, arr: seq<Val>, node: seq<Node>, arr': seq<Val>, node': seq<Node>)
    requires c.InArray? ==> c.i < |arr| && arr[c.i] != Nil && arr' == arr[c.i := v] && node' == node
    requires c.InNode? ==> c.n < |node| && node[c.n].val != Nil && arr' == arr && node' == node[c.n := node[c.n].(val := v)]
    requires !c.Absent?
    ensures Later(arr, node, arr', node')
  {}

  method ApplyAll(t: Table, es: seq<Edit>)
    requires t.Valid() && Allowed(es)
    modifies t
    ensures t.Valid() && t.View() == AllEdited(old(t.View()), es) && t.l == old(t.l)
    ensures Later(old(t.arr), old(t.node), t.arr, t.node)
  {
    var i := 0;
    while i < |es|
      invariant i <= |es| && t.Valid() && t.View() == AllEdited(old(t.View()), es[..i]) && t.l == old(t.l)
      invariant Later(old(t.arr), old(t.node), t.arr, t.node)
    {
      ghost var arr, node := t.arr, t.node;
      Apply(t, es[i]);
      LaterTrans(old(t.arr), old(t.node), arr, node, t.arr, t.node);
      assert es[..i + 1][..i] == es[..i];
      i := i + 1;
    }
    assert es[..i] == es;
  }

  // ----- a whole traversal -----

  // A key's value is gone in the j-th of the contents seen so far, before its place was reached.
  ghost predicate GoneBy(k: Key, p: nat, places: seq<nat>, views: seq<map<Key, Val>>, j: nat) {
    j <= |places| && j < |views| && k !in views[j] && (forall i :: 0 <= i < j && i < |places| ==> places[i] < p) &&
    forall i :: j <= i < |places| ==> p < places[i]
  }

  // The items are the entries at 'places', in this order, each with the value it had at its turn.
  ghost predicate Visits(arr: seq<Val>, node: seq<Node>, items: seq<(Key, Val)>, places: seq<nat>, views: seq<map<Key,
                         Val>>) {
    |items| == |places| <= |views| && (forall i, j :: 0 <= i < j < |places| ==> places[i] < places[j]) &&
    (forall i :: 0 <= i < |places| ==> places[i] < |arr| + |node| && ValAt(arr, node, places[i]) != Nil && items[i].0 == KeyAt(arr, node, places[i])) &&
    forall i :: 0 <= i < |items| ==> items[i].0 in views[i] && views[i][items[i].0] == items[i].1
  }

  // The entries before p have had their turn, or were gone before it.
  ghost predicate Passed(arr: seq<Val>, node: seq<Node>, places: seq<nat>, views: seq<map<Key, Val>>, p: int) {
    p <= |arr| + |node| &&
    forall q: nat :: q < p && ValAt(arr, node, q) != Nil ==> q in places || exists j :: GoneBy(KeyAt(arr, node, q), q, places, views, j)
  }

  // The contents at each turn follow from the changes.
  ghost predicate Evolve(views: seq<map<Key, Val>>, edits: seq<seq<Edit>>) {
    forall i :: 0 <= i < |views| - 1 ==> views[i + 1] == AllEdited(views[i], EditsAt(edits, i))
  }

  ghost predicate Before(places: seq<nat>, p: int) { forall i :: 0 <= i < |places| ==> places[i] < p }

  // Keys with a value are proper, and at one place each.
  ghost predicate OneEach(arr: seq<Val>, node: seq<Node>) {
    forall p: nat :: p < |arr| + |node| && ValAt(arr, node, p) != Nil ==>
      Proper(KeyAt(arr, node, p)) && forall q: nat :: q < |arr| + |node| && KeyAt(arr, node, q) == KeyAt(arr, node, p) ==> q == p
  }

  lemma ValidHasOneEach(t: Table)
    requires t.Valid()
    ensures OneEach(t.arr, t.node)
  {
    forall p: nat | p < |t.arr| + |t.node| && ValAt(t.arr, t.node, p) != Nil
      ensures Proper(KeyAt(t.arr, t.node, p))
      ensures forall q: nat :: q < |t.arr| + |t.node| && KeyAt(t.arr, t.node, q) == KeyAt(t.arr, t.node, p) ==> q == p
    {
      LiveKeyAt(t, p);
      forall q: nat | q < |t.arr| + |t.node| && KeyAt(t.arr, t.node, q) == KeyAt(t.arr, t.node, p) ensures q == p { OnePlace(t, p, q); }
    }
  }

  // A key that is alive is the one that was there.
  lemma StillKey(arr: seq<Val>, node: seq<Node>, arr': seq<Val>, node': seq<Node>, p: nat)
    requires Later(arr, node, arr', node') && p < |arr| + |node| && Proper(KeyAt(arr', node', p))
    ensures KeyAt(arr, node, p) == KeyAt(arr', node', p)
  {
    if p >= |arr| { assert SameOrDead(node[p - |arr|].key, node'[p - |arr|].key); }
  }

  // No value where the key was: no value under the key.
  lemma GoneNow(t: Table, arr: seq<Val>, node: seq<Node>, q: nat)
    requires t.Valid() && OneEach(arr, node) && Later(arr, node, t.arr, t.node) && q < |arr| + |node|
    requires ValAt(arr, node, q) != Nil && ValAt(t.arr, t.node, q) == Nil
    ensures KeyAt(arr, node, q) !in t.View()
  {
    var k := KeyAt(arr, node, q);
    if t.Lookup(k) != Nil {
      var p := PlaceOf(t, k);
      StillKey(arr, node, t.arr, t.node, p);
    }
  }

  // The entry at p has its turn.
  lemma Turn(t: Table, arr: seq<Val>, node: seq<Node>, r: Next, p: int, items: seq<(Key, Val)>, places: seq<nat>,
             views: seq<map<Key, Val>>)
    requires t.Valid() && Later(arr, node, t.arr, t.node) && r.Entry? && 0 <= p < |arr| + |node|
    requires r.k == KeyAt(t.arr, t.node, p) && r.v == ValAt(t.arr, t.node, p) != Nil
    requires |views| == |items| + 1 && t.View() == views[|items|]
    requires Visits(arr, node, items, places, views) && Passed(arr, node, places, views, p) && Before(places, p)
    ensures Visits(arr, node, items + [(r.k, r.v)], places + [p], views) &&
            Passed(arr, node, places + [p], views, p + 1)
    ensures Before(places + [p], p + 1) && From(t, r.k, p) && Proper(r.k)
  {
    hide Table.Valid, Table.Lookup, Later, From, Passed, OneEach;
    LaterSize(arr, node, t.arr, t.node);
    LiveKeyAt(t, p);
    LiveFrom(t, p);
    LaterEmpty(arr, node, t.arr, t.node, p);
    StillKey(arr, node, t.arr, t.node, p);
    OneMorePassed(arr, node, places, views, p);
  }

  lemma LaterSize(arr: seq<Val>, node: seq<Node>, arr': seq<Val>, node': seq<Node>)
    requires Later(arr, node, arr', node')
    ensures |arr'| == |arr| && |node'| == |node|
  {}

  lemma LaterEmpty(arr: seq<Val>, node: seq<Node>, arr': seq<Val>, node': seq<Node>, p: nat)
    requires Later(arr, node, arr', node') && p < |arr| + |node| && ValAt(arr', node', p) != Nil
    ensures ValAt(arr, node, p) != Nil
  {}

  lemma OneMorePassed(arr: seq<Val>, node: seq<Node>, places: seq<nat>, views: seq<map<Key, Val>>, p: nat)
    requires Passed(arr, node, places, views, p) && p < |arr| + |node|
    ensures Passed(arr, node, places + [p], views, p + 1)
  {
    forall q: nat | q < p + 1 && ValAt(arr, node, q) != Nil
      ensures q in places + [p] || exists j :: GoneBy(KeyAt(arr, node, q), q, places + [p], views, j)
    {
      if q == p {
        assert (places + [p])[|places|] == p;
      } else if q !in places {
        var j :| GoneBy(KeyAt(arr, node, q), q, places, views, j);
        assert GoneBy(KeyAt(arr, node, q), q, places + [p], views, j);
      }
    }
  }

  lemma FromParts(t: Table, k: Key, p: int)
    requires From(t, k, p) && Proper(k)
    ensures if k.IntKey? && 0 < k.i <= |t.arr| then p == k.i - 1 else p >= |t.arr| && FirstMatch(t.node, t.l, k, p - |t.arr|)
  {}

  // The traversal goes on from the same place after the changes.
  lemma StaysFrom(t: Table, arr: seq<Val>, node: seq<Node>, l: Layout, k: Key, p: int)
    requires Later(arr, node, t.arr, t.node) && l == t.l && Proper(k)
    requires if k.IntKey? && 0 < k.i <= |arr| then p == k.i - 1 else p >= |arr| && FirstMatch(node, l, k, p - |arr|)
    ensures From(t, k, p)
  {
    if !t.InArrayRange(k) { StaysFirst(arr, node, t.arr, t.node, l, k, p - |arr|); }
  }

  // The entries up to the next place with a value are gone.
  lemma NextPassed(t: Table, arr: seq<Val>, node: seq<Node>, from: int, r: Next, p: int, places: seq<nat>,
                   views: seq<map<Key, Val>>)
    requires t.Valid() && OneEach(arr, node) && Later(arr, node, t.arr, t.node) && Follows(t, from, r, p)
    requires |views| > 0 && t.View() == views[|views| - 1] && |places| == |views| - 1
    requires Passed(arr, node, places, views, from + 1) && Before(places, from + 1)
    ensures Passed(arr, node, places, views, p) && Before(places, p)
  {
    forall q: nat | q < p && ValAt(arr, node, q) != Nil
      ensures q in places || exists j :: GoneBy(KeyAt(arr, node, q), q, places, views, j)
    {
      if q > from {
        GoneNow(t, arr, node, q);
        assert GoneBy(KeyAt(arr, node, q), q, places, views, |views| - 1);
      }
    }
  }

  lemma MoreViews(arr: seq<Val>, node: seq<Node>, items: seq<(Key, Val)>, places: seq<nat>, views: seq<map<Key, Val>>,
                  m: map<Key, Val>,
                  edits: seq<seq<Edit>>, p: int)
    requires Visits(arr, node, items, places, views) && Passed(arr, node, places, views, p) && Evolve(views, edits)
    requires |views| > 0 && m == AllEdited(views[|views| - 1], EditsAt(edits, |views| - 1))
    ensures Visits(arr, node, items, places, views + [m]) && Passed(arr, node, places, views + [m], p) &&
            Evolve(views + [m], edits)
  {
    forall q: nat | q < p && ValAt(arr, node, q) != Nil
      ensures q in places || exists j :: GoneBy(KeyAt(arr, node, q), q, places, views + [m], j)
    {
      if q !in places {
        var j :| GoneBy(KeyAt(arr, node, q), q, places, views, j);
        assert GoneBy(KeyAt(arr, node, q), q, places, views + [m], j);
      }
    }
  }

  lemma NothingVisited(arr: seq<Val>, node: seq<Node>, views: seq<map<Key, Val>>, edits: seq<seq<Edit>>)
    requires |views| == 1
    ensures Visits(arr, node, [], [], views) && Passed(arr, node, [], views, 0) && Evolve(views, edits)
  {}

  lemma Begins(t: Table, from: int)
    ensures From(t, NilKey, -1) && (From(t, NilKey, from) ==> from == -1)
  {}

  lemma AllVisited(arr: seq<Val>, node: seq<Node>, items: seq<(Key, Val)>, places: seq<nat>, views: seq<map<Key, Val>>)
    requires OneEach(arr, node) && Visits(arr, node, items, places, views)
    ensures forall i, j :: 0 <= i < j < |items| ==> items[i].0 != items[j].0
  {
    forall i, j | 0 <= i < j < |items| ensures items[i].0 != items[j].0 {
      assert places[i] < places[j] && ValAt(arr, node, places[i]) != Nil;
    }
  }

  // One round of the loop: the changes, and the next entry.
  method Step(t: Table, k: Key, ghost at: int, es: seq<Edit>) returns (r: Next, ghost p: int)
    requires t.Valid() && Allowed(es) && From(t, k, at) && Proper(k)
    modifies t
    ensures t.Valid() && t.View() == AllEdited(old(t.View()), es) && Later(old(t.arr), old(t.node), t.arr, t.node)
    ensures Follows(t, at, r, p)
  {
    hide Table.Valid, Table.Lookup, From, Follows, Later, AllEdited, FirstMatch;
    ghost var arr, node, l := t.arr, t.node, t.l;
    FromParts(t, k, at);
    ApplyAll(t, es);
    StaysFrom(t, arr, node, l, k, at);
    ghost var from;
    r, from, p := TableNext(t, k);
    assert From(t, k, at);
    FromUnique(t, k, from, at);
  }

  // The loop 'for k, v in next, t', where edits[i] happens after the i-th entry has been visited.
  method Traverse(t: Table, edits: seq<seq<Edit>>)
    returns (items: seq<(Key, Val)>, ghost places: seq<nat>, ghost views: seq<map<Key, Val>>)
    requires t.Valid() && forall i :: 0 <= i < |edits| ==> Allowed(edits[i])
    modifies t
    ensures t.Valid() && |views| == |items| + 1 && views[0] == old(t.View()) && t.View() == views[|items|] &&
            Evolve(views, edits)
    ensures Visits(old(t.arr), old(t.node), items, places, views)
    ensures Passed(old(t.arr), old(t.node), places, views, |old(t.arr)| + |old(t.node)|)
    ensures forall i, j :: 0 <= i < j < |items| ==> items[i].0 != items[j].0
  {
    hide Table.Valid, Table.Lookup, From, Visits, Passed, Evolve, Later, AllEdited, OneEach;
    ghost var arr, node := t.arr, t.node;
    items, places, views := [], [], [t.View()];
    ValidHasOneEach(t);
    LaterRefl(arr, node);
    NothingVisited(arr, node, views, edits);
    var k := NilKey;
    var r;
    ghost var from: int, p: int;
    r, from, p := TableNext(t, k);
    Begins(t, from);
    NextPassed(t, arr, node, from, r, p, places, views);
    while r.Entry?
      invariant 0 <= p <= |arr| + |node| && (r.Entry? ==> p < |arr| + |node|)
      invariant t.Valid() && Later(arr, node, t.arr, t.node) && Follows(t, from, r, p)
      invariant |places| == |items| && |views| == |items| + 1 && views[0] == old(t.View()) && t.View() == views[|items|]
      invariant Evolve(views, edits) && Visits(arr, node, items, places, views) &&
                Passed(arr, node, places, views, p) && Before(places, p)
      decreases |arr| + |node| - p
    {
      Turn(t, arr, node, r, p, items, places, views);
      items, places := items + [(r.k, r.v)], places + [p];
      k := r.k;
      ghost var arr1, node1, view := t.arr, t.node, t.View();
      from := p;
      r, p := Step(t, k, from, if |items| <= |edits| then edits[|items| - 1] else []);
      LaterTrans(arr, node, arr1, node1, t.arr, t.node);
      MoreViews(arr, node, items, places, views, t.View(), edits, from + 1);
      views := views + [t.View()];
      NextPassed(t, arr, node, from, r, p, places, views);
    }
    LaterSize(arr, node, t.arr, t.node);
    AllVisited(arr, node, items, places, views);
  }
}
