// Searching a red-black map, entering a leaf and taking a node out (src/structs/map.c).
module MapSearch {
  import opened MapTree
  import opened MapColors
  import opened MapRepair

  // ----- what is below what -----

  lemma {:induction false} BelowTrans(mem: Mem, root: Ref, sub: Below, a: Ref, x: Ref)
    requires Sets(mem, root, sub) && a in mem && x in sub[a]
    ensures x in Nodes(mem) && sub[x] <= sub[a] && (x != a ==> mem[x].parent in sub[a] && a !in sub[x])
    decreases sub[a]
  {
    if a != NIL {
      assert LinksAt(mem, root, a) && BelowAt(mem, sub, a);
      if x != a {
        var right := x in sub[mem[a].right];
        var c := Kid(mem[a], right);
        KidBelow(mem, root, sub, a, right);
        BelowTrans(mem, root, sub, c, x);
        if x != c { KidBelow(mem, root, sub, a, right); }
      }
    }
  }

  lemma RootTop(mem: Mem, root: Ref, sub: Below, a: Ref)
    requires Sets(mem, root, sub) && a in Nodes(mem) && a != root
    ensures root !in sub[a]
  {
    if root in sub[a] {
      BelowTrans(mem, root, sub, a, root);
    }
  }

  lemma {:induction false} KeysApart(mem: Mem, root: Ref, sub: Below, t: Ref, n: Ref, m: Ref)
    requires Shape(mem, root, sub) && t in mem && n in sub[t] && m in sub[t] && n != m
    ensures n in mem && m in mem && mem[n].key != mem[m].key
    decreases sub[t]
  {
    BelowTrans(mem, root, sub, t, n);
    BelowTrans(mem, root, sub, t, m);
    assert LinksAt(mem, root, t) && BelowAt(mem, sub, t) && OrderAt(mem, sub, t);
    forall right: bool | n in sub[Kid(mem[t], right)] && m in sub[Kid(mem[t], right)] ensures mem[n].key != mem[m].key {
      KidBelow(mem, root, sub, t, right);
      KeysApart(mem, root, sub, Kid(mem[t], right), n, m);
    }
    assert Kid(mem[t], true) == mem[t].right && Kid(mem[t], false) == mem[t].left;
  }

  ghost predicate UniqueKeys(mem: Mem) {
    forall n, m :: n in Nodes(mem) && m in Nodes(mem) && mem[n].key == mem[m].key ==> n == m
  }

  lemma ShapeUnique(mem: Mem, root: Ref, sub: Below)
    requires Shape(mem, root, sub)
    ensures UniqueKeys(mem)
  {
    forall n, m | n in Nodes(mem) && m in Nodes(mem) && mem[n].key == mem[m].key ensures n == m {
      if n != m { KeysApart(mem, root, sub, root, n, m); }
    }
  }

  // The map that the nodes stand for.
  ghost function View(mem: Mem): map<int, int>
    requires UniqueKeys(mem)
  {
    map n | n in Nodes(mem) :: mem[n].key := mem[n].val
  }

  lemma ViewAt(mem: Mem, n: Ref)
    requires UniqueKeys(mem) && n in Nodes(mem)
    ensures mem[n].key in View(mem) && View(mem)[mem[n].key] == mem[n].val
  {}

  lemma ViewKey(mem: Mem, key: int) returns (n: Ref)
    requires UniqueKeys(mem) && key in View(mem)
    ensures n in Nodes(mem) && mem[n].key == key
  {
    n :| n in Nodes(mem) && mem[n].key == key;
  }

  lemma SameNode(mem: Mem, n: Ref, m: Ref)
    requires UniqueKeys(mem) && n in Nodes(mem) && m in Nodes(mem)
    ensures mem[n].key == mem[m].key ==> n == m
  {}

  // ----- changes that keep the entries -----

  ghost predicate SameEntry(mem: Mem, mem': Mem, n: Ref) {
    n in mem && n in mem' && mem'[n].key == mem[n].key && mem'[n].val == mem[n].val
  }

  ghost predicate SameEntries(mem: Mem, mem': Mem) {
    mem'.Keys == mem.Keys && forall n {:trigger SameEntry(mem, mem', n)} :: n in mem ==> SameEntry(mem, mem', n)
  }

  lemma EntriesTrans(mem: Mem, mem1: Mem, mem2: Mem)
    requires SameEntries(mem, mem1) && SameEntries(mem1, mem2)
    ensures SameEntries(mem, mem2)
  {
    forall n | n in mem ensures SameEntry(mem, mem2, n) { assert SameEntry(mem, mem1, n) && SameEntry(mem1, mem2, n); }
  }

  lemma RotateEntries(mem: Mem, root: Ref, sub: Below, x: Ref, dir: bool)
    requires Shape(mem, root, sub) && x in Nodes(mem) && Kid(mem[x], !dir) != NIL
    ensures Kid(mem[x], !dir) in mem && SameEntries(mem, Rotated(mem, x, dir))
  {
    hide Rotated;
    IsAround(mem, root, sub, x, dir);
    var y := Kid(mem[x], !dir);
    var a, b, d, p := Kid(mem[x], dir), Kid(mem[y], dir), Kid(mem[y], !dir), mem[x].parent;
    RotatedIs(mem, x, y, a, b, d, p, dir);
    hide Shape;
    forall n | n in mem ensures SameEntry(mem, Rotated(mem, x, dir), n) { RotatedEntry(mem, Rotated(mem, x, dir), x, y, b, p, dir, n); }
  }

  lemma RotatedEntry(mem: Mem, mem': Mem, x: Ref, y: Ref, b: Ref, p: Ref, dir: bool, n: Ref)
    requires x in mem && y in mem && b in mem && p in mem && n in mem && RotatedRecs(mem, mem', x, y, b, p, dir)
    ensures SameEntry(mem, mem', n)
  {}

  lemma PaintEntries(mem: Mem, n: Ref, c: Color)
    requires n in mem
    ensures SameEntries(mem, Paint(mem, n, c))
  {}

  lemma EntriesView(mem: Mem, mem': Mem)
    requires SameEntries(mem, mem') && UniqueKeys(mem)
    ensures Nodes(mem') == Nodes(mem) && UniqueKeys(mem') && View(mem') == View(mem)
  {
    hide View, SameEntry;
    SameUnique(mem, mem');
    forall k | k in View(mem) ensures k in View(mem') && View(mem')[k] == View(mem)[k] {
      var n := ViewKey(mem, k);
      EntryAt(mem, mem', n);
      ViewAt(mem, n);
      ViewAt(mem', n);
    }
    forall k | k in View(mem') ensures k in View(mem) {
      var n := ViewKey(mem', k);
      EntryAt(mem, mem', n);
      ViewAt(mem, n);
    }
  }

  lemma EntryAt(mem: Mem, mem': Mem, n: Ref)
    requires SameEntries(mem, mem') && n in mem
    ensures n in mem' && mem'[n].key == mem[n].key && mem'[n].val == mem[n].val
  {
    assert SameEntry(mem, mem', n);
  }

  lemma SameUnique(mem: Mem, mem': Mem)
    requires SameEntries(mem, mem') && UniqueKeys(mem)
    ensures UniqueKeys(mem')
  {
    forall n, m | n in Nodes(mem') && m in Nodes(mem') && mem'[n].key == mem'[m].key ensures n == m {
      assert SameEntry(mem, mem', n) && SameEntry(mem, mem', m);
    }
  }

  // As many keys as nodes.
  lemma {:induction false} ViewSize(mem: Mem)
    requires UniqueKeys(mem)
    ensures |View(mem)| == |Nodes(mem)|
    decreases |mem|
  {
    hide View, UniqueKeys;
    if Nodes(mem) == {} {
      NoEntries(mem);
    } else {
      var n := PickNode(Nodes(mem));
      var mem' := mem - {n};
      assert Nodes(mem') == Nodes(mem) - {n};
      FewerUnique(mem, n);
      ViewSize(mem');
      ViewMinus(mem, mem', n);
      assert View(mem).Keys == View(mem').Keys + {mem[n].key};
    }
  }

  lemma NoEntries(mem: Mem)
    requires UniqueKeys(mem) && Nodes(mem) == {}
    ensures View(mem) == map[]
  {}

  lemma FewerUnique(mem: Mem, n: Ref)
    requires UniqueKeys(mem)
    ensures UniqueKeys(mem - {n})
  {}

  lemma ViewMinus(mem: Mem, mem': Mem, n: Ref)
    requires UniqueKeys(mem) && UniqueKeys(mem') && n in Nodes(mem) && mem' == mem - {n}
    ensures View(mem') == View(mem) - {mem[n].key} && mem[n].key in View(mem)
  {
    hide UniqueKeys;
    forall k | k in View(mem') ensures k in View(mem) && k != mem[n].key && View(mem')[k] == View(mem)[k] {
      var m := ViewKey(mem', k);
      ViewAt(mem', m);
      ViewAt(mem, m);
      SameNode(mem, m, n);
    }
    forall k | k in View(mem) && k != mem[n].key ensures k in View(mem') {
      var m := ViewKey(mem, k);
      ViewAt(mem', m);
    }
    ViewAt(mem, n);
  }

  lemma PickNode(s: set<Ref>) returns (n: Ref)
    requires s != {}
    ensures n in s
  {
    n :| n in s;
  }

  // ----- searching -----

  // A node with this key is at or below p; the key belongs below p.
  ghost predicate OnPath(mem: Mem, sub: Below, p: Ref, key: int) {
    p in mem && p in sub && mem.Keys == sub.Keys &&
    (forall n :: n in Nodes(mem) && mem[n].key == key ==> n in sub[p]) &&
    forall a {:trigger sub[a]} :: a in Nodes(mem) && a != p && p in sub[a] ==>
      mem[a].left in sub && mem[a].right in sub &&
      (p in sub[mem[a].left] ==> key < mem[a].key) && (p in sub[mem[a].right] ==> key > mem[a].key)
  }

  lemma PathStarts(mem: Mem, root: Ref, sub: Below, key: int)
    requires Shape(mem, root, sub)
    ensures OnPath(mem, sub, root, key)
  {
    forall a | a in Nodes(mem) && a != root ensures root !in sub[a] { RootTop(mem, root, sub, a); }
  }

  lemma PathStep(mem: Mem, root: Ref, sub: Below, p: Ref, key: int, right: bool)
    requires Shape(mem, root, sub) && p in Nodes(mem) && OnPath(mem, sub, p, key)
    requires if right then key > mem[p].key else key < mem[p].key
    ensures var c := Kid(mem[p], right); c in mem && (forall n :: n in Nodes(mem) && mem[n].key == key ==> n in sub[c]) && (c != NIL ==> OnPath(mem, sub, c, key))
  {
    var c := Kid(mem[p], right);
    assert LinksAt(mem, root, p) && BelowAt(mem, sub, p) && OrderAt(mem, sub, p);
    KidBelow(mem, root, sub, p, right);
    forall n | n in Nodes(mem) && mem[n].key == key ensures n in sub[c] { assert n in sub[p]; }
    if c != NIL {
      forall a | a in Nodes(mem) && a != c && c in sub[a]
        ensures mem[a].left in sub && mem[a].right in sub && (c in sub[mem[a].left] ==> key < mem[a].key) &&
                (c in sub[mem[a].right] ==> key > mem[a].key)
      {
        PathAbove(mem, root, sub, p, c, a);
      }
    }
  }

  // Above a node is its parent, or above its parent, on the same side.
  lemma PathAbove(mem: Mem, root: Ref, sub: Below, p: Ref, c: Ref, a: Ref)
    requires Shape(mem, root, sub) && c in Nodes(mem) && p == mem[c].parent && p in Nodes(mem) && a in Nodes(mem) &&
             a != c && c in sub[a]
    ensures mem[a].left in sub && mem[a].right in sub && p in sub[a]
    ensures a != p ==> (c in sub[mem[a].left] ==> p in sub[mem[a].left]) && (c in sub[mem[a].right] ==> p in sub[mem[a].right])
    ensures a == p ==> (c in sub[mem[a].left] ==> c == mem[a].left) && (c in sub[mem[a].right] ==> c == mem[a].right)
  {
    assert LinksAt(mem, root, a) && BelowAt(mem, sub, a) && LinksAt(mem, root, c);
    BelowTrans(mem, root, sub, a, c);
    KidBelow(mem, root, sub, a, false);
    KidBelow(mem, root, sub, a, true);
    if c in sub[mem[a].left] { BelowTrans(mem, root, sub, mem[a].left, c); }
    if c in sub[mem[a].right] { BelowTrans(mem, root, sub, mem[a].right, c); }
  }

  // ----- a new leaf -----

  function WithLeaf(mem: Mem, p: Ref, right: bool, at: Ref, key: int, val: int): Mem {
    var m1 := mem[at := Rec(NIL, NIL, p, key, val, Red)];
    if p != NIL && p in m1 then m1[p := SetKid(m1[p], right, at)] else m1
  }

  ghost function LeafBelow(sub: Below, p: Ref, at: Ref): Below {
    map n | n in sub.Keys + {at} :: if n == at then {at} else if p != NIL && p in sub[n] then sub[n] + {at} else sub[n]
  }

  // Where the leaf belongs.
  ghost predicate LeafFits(mem: Mem, root: Ref, sub: Below, p: Ref, right: bool, at: Ref, key: int) {
    at !in mem && at != NIL && p in mem && (p == NIL <==> root == NIL) &&
    (p != NIL ==> Kid(mem[p], right) == NIL && OnPath(mem, sub, p, key) && (if right then key > mem[p].key else key < mem[p].key))
  }

  lemma LeafLinks(mem: Mem, root: Ref, sub: Below, p: Ref, right: bool, at: Ref, key: int, val: int)
    requires Shape(mem, root, sub) && LeafFits(mem, root, sub, p, right, at, key)
    ensures Links(WithLeaf(mem, p, right, at, key, val), if p == NIL then at else root)
  {
    var mem', root' := WithLeaf(mem, p, right, at, key, val), if p == NIL then at else root;
    if p != NIL { assert LinksAt(mem, root, p); }
    forall n | n in mem' && n != NIL ensures LinksAt(mem', root', n) {
      if n != at { assert LinksAt(mem, root, n); }
    }
  }

  lemma LeafNode(mem: Mem, root: Ref, sub: Below, p: Ref, right: bool, at: Ref, key: int, val: int, n: Ref)
    requires Shape(mem, root, sub) && LeafFits(mem, root, sub, p, right, at, key) && p != NIL && n in Nodes(mem)
    ensures var mem', sub' := WithLeaf(mem, p, right, at, key, val), LeafBelow(sub, p, at); BelowAt(mem', sub', n) && OrderAt(mem', sub', n)
  {
    hide Shape, LinksAt, BelowAt, OrderAt, LeafBelow, WithLeaf, OnPath;
    var mem', sub' := WithLeaf(mem, p, right, at, key, val), LeafBelow(sub, p, at);
    LeafKids(mem, root, sub, p, right, at, key, val, n);
    LeafSets(mem, root, sub, p, right, at, key, n);
    LeafSet(mem, mem', sub, sub', p, right, at, n);
    LeafOrder(mem, mem', sub, sub', p, right, at, key, val, n);
  }

  lemma LeafKids(mem: Mem, root: Ref, sub: Below, p: Ref, right: bool, at: Ref, key: int, val: int, n: Ref)
    requires Shape(mem, root, sub) && LeafFits(mem, root, sub, p, right, at, key) && p != NIL && n in Nodes(mem)
    ensures var mem' := WithLeaf(mem, p, right, at, key, val);
            n in mem' && at in mem' && (n == p ==> mem'[n] == SetKid(mem[n], right, at)) &&
            (n != p ==> mem'[n] == mem[n])
  {}

  lemma LeafSets(mem: Mem, root: Ref, sub: Below, p: Ref, right: bool, at: Ref, key: int, n: Ref)
    requires Shape(mem, root, sub) && LeafFits(mem, root, sub, p, right, at, key) && p != NIL && n in Nodes(mem)
    ensures BelowAt(mem, sub, n) && OrderAt(mem, sub, n) && n in sub && p in sub && p in sub[p]
    ensures var sub', l, r := LeafBelow(sub, p, at), mem[n].left, mem[n].right;
            at in sub' && n in sub' && l in sub && r in sub && l in sub' && r in sub' && sub'[at] == {at} &&
            at !in sub[n] && at !in sub[l] && at !in sub[r] && at != n &&
            sub'[n] == (if p in sub[n] then sub[n] + {at} else sub[n]) &&
            sub'[l] == (if p in sub[l] then sub[l] + {at} else sub[l]) &&
            sub'[r] == (if p in sub[r] then sub[r] + {at} else sub[r])
    ensures Kid(mem[p], right) == NIL && (n == p ==> sub[Kid(mem[n], right)] == {})
  {
    assert LinksAt(mem, root, n) && BelowAt(mem, sub, n) && OrderAt(mem, sub, n);
    KidBelow(mem, root, sub, p, right);
    AtNowhere(mem, root, sub, n, at);
    AtNowhere(mem, root, sub, mem[n].left, at);
    AtNowhere(mem, root, sub, mem[n].right, at);
    hide Shape;
  }

  lemma LeafSet(mem: Mem, mem': Mem, sub: Below, sub': Below, p: Ref, right: bool, at: Ref, n: Ref)
    requires n in mem && n in mem' && p in sub && p in sub[p] && BelowAt(mem, sub, n) && at in sub' && n in sub' &&
             sub'[at] == {at}
    requires (n == p ==> mem'[n] == SetKid(mem[n], right, at)) && (n != p ==> mem'[n] == mem[n]) &&
             (n == p ==> sub[Kid(mem[n], right)] == {})
    requires var l, r := mem[n].left, mem[n].right;
             l in sub' && r in sub' && at !in sub[n] && at !in sub[l] && at !in sub[r] && at != n &&
             sub'[n] == (if p in sub[n] then sub[n] + {at} else sub[n]) &&
             sub'[l] == (if p in sub[l] then sub[l] + {at} else sub[l]) &&
             sub'[r] == (if p in sub[r] then sub[r] + {at} else sub[r])
    ensures BelowAt(mem', sub', n) && mem'[n].left in sub' && mem'[n].right in sub'
    ensures n == p ==> if right then mem'[n].left == mem[n].left && sub'[mem'[n].left] == sub[mem[n].left] &&
            sub'[mem'[n].right] == {at}
                       else mem'[n].right == mem[n].right && sub'[mem'[n].right] == sub[mem[n].right] && sub'[mem'[n].left] == {at}
    ensures n != p && (p in sub[mem[n].left] || p in sub[mem[n].right]) ==> p in sub[n]
  {}

  lemma LeafOrder(mem: Mem, mem': Mem, sub: Below, sub': Below, p: Ref, right: bool, at: Ref, key: int, val: int,
                  n: Ref)
    requires OrderAt(mem, sub, n) && n in Nodes(mem) && p in Nodes(mem) && at !in mem && OnPath(mem, sub, p, key) &&
             n in sub
    requires mem' == WithLeaf(mem, p, right, at, key, val) && mem'[n].left in sub' && mem'[n].right in sub' &&
             at in mem'
    requires if right then key > mem[p].key else key < mem[p].key
    requires n == p ==> if right then mem'[n].left == mem[n].left && sub'[mem'[n].left] == sub[mem[n].left] &&
             sub'[mem'[n].right] == {at}
                        else mem'[n].right == mem[n].right && sub'[mem'[n].right] == sub[mem[n].right] && sub'[mem'[n].left] == {at}
    requires n != p ==> mem'[n].left == mem[n].left && mem'[n].right == mem[n].right
    requires n != p ==> sub'[mem[n].left] == (if p in sub[mem[n].left] then sub[mem[n].left] + {at} else sub[mem[n].left])
    requires n != p ==> sub'[mem[n].right] == (if p in sub[mem[n].right] then sub[mem[n].right] + {at} else sub[mem[n].right])
    requires n != p && (p in sub[mem[n].left] || p in sub[mem[n].right]) ==> p in sub[n]
    ensures OrderAt(mem', sub', n)
  {
    assert forall q :: q in mem ==> mem'[q].key == mem[q].key;
    assert mem'[at].key == key;
  }

  lemma AtNowhere(mem: Mem, root: Ref, sub: Below, n: Ref, at: Ref)
    requires Shape(mem, root, sub) && n in mem && at !in mem
    ensures at !in sub[n]
  {
    if at in sub[n] { BelowTrans(mem, root, sub, n, at); }
  }

  lemma AddLeaf(mem: Mem, root: Ref, sub: Below, bh: Heights, p: Ref, right: bool, at: Ref, key: int, val: int)
    requires Shape(mem, root, sub) && Balanced(mem, bh) && LeafFits(mem, root, sub, p, right, at, key)
    ensures InsertState(WithLeaf(mem, p, right, at, key, val), if p == NIL then at else root, LeafBelow(sub, p, at), bh[at := 1], at)
    ensures Nodes(WithLeaf(mem, p, right, at, key, val)) == Nodes(mem) + {at}
  {
    hide LinksAt, BelowAt, OrderAt, BlackAt, RedAt, WithLeaf, LeafBelow;
    var mem', root', sub' := WithLeaf(mem, p, right, at, key, val), if p == NIL then at else root, LeafBelow(sub, p, at);
    LeafLinks(mem, root, sub, p, right, at, key, val);
    LeafRec(mem, p, right, at, key, val);
    if p != NIL {
      forall n | n in Nodes(mem) ensures BelowAt(mem', sub', n) && OrderAt(mem', sub', n) { LeafNode(mem, root, sub, p, right, at, key, val, n); }
    }
    LeafColors(mem, root, sub, bh, p, right, at, key, val);
    LeafTop(mem, root, sub, p, right, at, key, val);
  }

  lemma LeafRec(mem: Mem, p: Ref, right: bool, at: Ref, key: int, val: int)
    requires at !in mem && at != NIL && p in mem
    ensures var mem' := WithLeaf(mem, p, right, at, key, val); at in mem' && mem'[at] == Rec(NIL, NIL, p, key, val, Red) && mem'.Keys == mem.Keys + {at}
  {}

  lemma LeafTop(mem: Mem, root: Ref, sub: Below, p: Ref, right: bool, at: Ref, key: int, val: int)
    requires Shape(mem, root, sub) && LeafFits(mem, root, sub, p, right, at, key)
    ensures var mem', root', sub' := WithLeaf(mem, p, right, at, key, val), if p == NIL then at else root, LeafBelow(sub, p, at);
            Nodes(mem') == Nodes(mem) + {at} && sub'.Keys == mem'.Keys && sub'[NIL] == {} &&
            sub'[root'] == Nodes(mem') &&
            BelowAt(mem', sub', at) && OrderAt(mem', sub', at)
  {
    if p != NIL { assert p in Nodes(mem) && p in sub[root]; } else { assert Nodes(mem) == {}; }
  }

  lemma LeafColors(mem: Mem, root: Ref, sub: Below, bh: Heights, p: Ref, right: bool, at: Ref, key: int, val: int)
    requires Shape(mem, root, sub) && Balanced(mem, bh) && LeafFits(mem, root, sub, p, right, at, key)
    ensures var mem', bh' := WithLeaf(mem, p, right, at, key, val), bh[at := 1];
            HeightsOK(mem', bh') && (forall n {:trigger BlackAt(mem', bh', n)} :: n in mem' && n != NIL ==> BlackAt(mem', bh', n)) &&
            (forall n {:trigger RedAt(mem', n, at)} :: n in mem' && n != NIL ==> RedAt(mem', n, at)) &&
            RedAt(mem', at, NIL)
  {
    var mem', bh' := WithLeaf(mem, p, right, at, key, val), bh[at := 1];
    forall n | n in mem' && n != NIL ensures BlackAt(mem', bh', n) && RedAt(mem', n, at) {
      if n != at { assert LinksAt(mem, root, n) && BlackAt(mem, bh, n) && RedAt(mem, n, NIL); }
    }
  }

  // ----- what the entries become -----

  lemma LeafView(mem: Mem, p: Ref, right: bool, at: Ref, key: int, val: int)
    requires UniqueKeys(mem) && at !in mem && at != NIL && p in mem && key !in View(mem)
    ensures var mem' := WithLeaf(mem, p, right, at, key, val); UniqueKeys(mem') && View(mem') == View(mem)[key := val]
  {
    hide UniqueKeys, WithLeaf, View;
    var mem' := WithLeaf(mem, p, right, at, key, val);
    LeafRec(mem, p, right, at, key, val);
    LeafEntries(mem, p, right, at, key, val);
    LeafUnique(mem, mem', at, key);
    forall k | k in View(mem') ensures k in View(mem)[key := val] && View(mem')[k] == View(mem)[key := val][k] {
      var n := ViewKey(mem', k);
      ViewAt(mem', n);
      if n != at { ViewAt(mem, n); }
    }
    forall k | k in View(mem)[key := val] ensures k in View(mem') {
      if k == key { ViewAt(mem', at); } else { var n := ViewKey(mem, k); ViewAt(mem', n); }
    }
  }

  lemma LeafEntries(mem: Mem, p: Ref, right: bool, at: Ref, key: int, val: int)
    requires at !in mem && at != NIL && p in mem
    ensures var mem' := WithLeaf(mem, p, right, at, key, val);
            forall n :: n in Nodes(mem) ==> n in mem' && mem'[n].key == mem[n].key && mem'[n].val == mem[n].val
  {}

  lemma LeafUnique(mem: Mem, mem': Mem, at: Ref, key: int)
    requires UniqueKeys(mem) && at !in mem && at != NIL && key !in View(mem) && mem'.Keys == mem.Keys + {at} &&
             mem'[at].key == key
    requires forall n :: n in Nodes(mem) ==> mem'[n].key == mem[n].key
    ensures UniqueKeys(mem')
  {
    hide View;
    forall n, m | n in Nodes(mem') && m in Nodes(mem') && mem'[n].key == mem'[m].key ensures n == m {
      if n != at { ViewAt(mem, n); }
      if m != at { ViewAt(mem, m); }
      if n != at && m != at { SameNode(mem, n, m); }
    }
  }

  // Another value for a key that is there.
  lemma Revalued(mem: Mem, root: Ref, sub: Below, bh: Heights, n: Ref, val: int)
    requires Shape(mem, root, sub) && Balanced(mem, bh) && n in Nodes(mem)
    ensures Shape(mem[n := mem[n].(val := val)], root, sub) && Balanced(mem[n := mem[n].(val := val)], bh)
  {
    hide LinksAt, BelowAt, OrderAt, BlackAt, RedAt;
    var mem' := mem[n := mem[n].(val := val)];
    assert Nodes(mem') == Nodes(mem);
    forall m | m in mem' && m != NIL ensures LinksAt(mem', root, m) && BelowAt(mem', sub, m) && OrderAt(mem', sub, m) {
      RevaluedNode(mem, root, sub, n, val, m);
    }
    forall m | m in mem' && m != NIL ensures BlackAt(mem', bh, m) && RedAt(mem', m, NIL) {
      ShapeLinks(mem, root, sub, m);
      assert BlackAt(mem, bh, m) && RedAt(mem, m, NIL);
      RevaluedColor(mem, root, bh, n, val, m);
    }
  }

  lemma RevaluedNode(mem: Mem, root: Ref, sub: Below, n: Ref, val: int, m: Ref)
    requires Shape(mem, root, sub) && n in Nodes(mem) && m in Nodes(mem)
    ensures var mem' := mem[n := mem[n].(val := val)]; LinksAt(mem', root, m) && BelowAt(mem', sub, m) && OrderAt(mem', sub, m)
  {
    assert LinksAt(mem, root, m) && BelowAt(mem, sub, m) && OrderAt(mem, sub, m);
    hide Shape;
  }

  lemma RevaluedColor(mem: Mem, root: Ref, bh: Heights, n: Ref, val: int, m: Ref)
    requires n in mem && m in mem && LinksAt(mem, root, m) && BlackAt(mem, bh, m) && RedAt(mem, m, NIL)
    ensures var mem' := mem[n := mem[n].(val := val)]; BlackAt(mem', bh, m) && RedAt(mem', m, NIL)
  {}

  lemma RevaluedView(mem: Mem, n: Ref, val: int)
    requires UniqueKeys(mem) && n in Nodes(mem)
    ensures var mem' := mem[n := mem[n].(val := val)]; UniqueKeys(mem') && View(mem') == View(mem)[mem[n].key := val]
  {
    var mem' := mem[n := mem[n].(val := val)];
    assert UniqueKeys(mem');
    hide UniqueKeys;
    forall k | k in View(mem') ensures k in View(mem) && View(mem')[k] == View(mem)[mem[n].key := val][k] {
      var m := ViewKey(mem', k);
      ViewAt(mem', m);
      ViewAt(mem, m);
      SameNode(mem, m, n);
    }
    forall k | k in View(mem)[mem[n].key := val] ensures k in View(mem') {
      var m := if k == mem[n].key then n else SomeKey(mem, k);
      ViewAt(mem', m);
    }
  }

  ghost function SomeKey(mem: Mem, key: int): (n: Ref)
    requires UniqueKeys(mem) && key in View(mem)
    ensures n in Nodes(mem) && mem[n].key == key
  {
    var n :| n in Nodes(mem) && mem[n].key == key; n
  }
}
