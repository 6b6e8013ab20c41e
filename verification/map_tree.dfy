// The nodes of a red-black map (src/structs/map.c): binary search trees with parent links and one
// sentinel, described node by node.
module MapTree {

  type Ref = nat

  const NIL: Ref := 0

  datatype Color = Black | Red

  datatype Rec = Rec(left: Ref, right: Ref, parent: Ref, key: int, val: int, color: Color)

  // The sentinel: its links lead to itself, and it is black.
  const NIL_NODE: Rec := Rec(NIL, NIL, NIL, 0, 0, Black)

  type Mem = map<Ref, Rec>

  // DIR_NODE
  function Kid(r: Rec, right: bool): Ref { if right then r.right else r.left }

  function SetKid(r: Rec, right: bool, c: Ref): Rec { if right then r.(right := c) else r.(left := c) }

  ghost function Nodes(mem: Mem): set<Ref> { mem.Keys - {NIL} }

  // ----- shape -----

  ghost predicate LinksAt(mem: Mem, root: Ref, n: Ref) {
    n in mem &&
    var r := mem[n];
    r.left in mem && r.right in mem && r.parent in mem && (r.left == r.right ==> r.left == NIL) &&
    (r.left != NIL ==> mem[r.left].parent == n) && (r.right != NIL ==> mem[r.right].parent == n) &&
    (r.parent == NIL <==> n == root) &&
    (r.parent != NIL ==> mem[r.parent].left == n || mem[r.parent].right == n)
  }

  ghost predicate Links(mem: Mem, root: Ref) {
    NIL in mem && mem[NIL] == NIL_NODE && root in mem && forall n {:trigger LinksAt(mem, root, n)} :: n in mem && n != NIL ==> LinksAt(mem, root, n)
  }

  // The nodes below and including each node.
  type Below = map<Ref, set<Ref>>

  ghost predicate BelowAt(mem: Mem, sub: Below, n: Ref) {
    n in mem && n in sub && mem[n].left in sub && mem[n].right in sub &&
    var l, r := sub[mem[n].left], sub[mem[n].right];
    sub[n] == {n} + l + r && n !in l && n !in r && l !! r
  }

  ghost predicate Sets(mem: Mem, root: Ref, sub: Below) {
    Links(mem, root) && sub.Keys == mem.Keys && sub[NIL] == {} && sub[root] == Nodes(mem) &&
    forall n {:trigger BelowAt(mem, sub, n)} :: n in mem && n != NIL ==> BelowAt(mem, sub, n)
  }

  ghost predicate OrderAt(mem: Mem, sub: Below, n: Ref) {
    n in mem && mem[n].left in sub && mem[n].right in sub &&
    (forall x :: x in sub[mem[n].left] ==> x in mem && mem[x].key < mem[n].key) &&
    (forall x :: x in sub[mem[n].right] ==> x in mem && mem[x].key > mem[n].key)
  }

  // A search tree that holds all nodes.
  ghost predicate Shape(mem: Mem, root: Ref, sub: Below) {
    Sets(mem, root, sub) && forall n {:trigger OrderAt(mem, sub, n)} :: n in mem && n != NIL ==> OrderAt(mem, sub, n)
  }

  // ----- sets of nodes -----

  lemma ParentAbove(mem: Mem, root: Ref, sub: Below, x: Ref)
    requires Sets(mem, root, sub) && x in Nodes(mem) && mem[x].parent != NIL
    ensures mem[x].parent in Nodes(mem) && mem[x].parent !in sub[x] && x in sub[mem[x].parent] &&
            sub[x] < sub[mem[x].parent]
  {
    assert LinksAt(mem, root, x) && BelowAt(mem, sub, x);
    var p := mem[x].parent;
    assert LinksAt(mem, root, p) && BelowAt(mem, sub, p);
  }

  lemma KidBelow(mem: Mem, root: Ref, sub: Below, x: Ref, right: bool)
    requires Sets(mem, root, sub) && x in Nodes(mem)
    ensures var c := Kid(mem[x], right); c in mem && sub[c] < sub[x] && x !in sub[c] && x in sub[x] && (c != NIL ==> mem[c].parent == x && c in sub[c])
  {
    assert LinksAt(mem, root, x) && BelowAt(mem, sub, x);
    var c := Kid(mem[x], right);
    if c != NIL { assert BelowAt(mem, sub, c); }
  }

  // ----- rotations -----

  // node_rotate_left (dir false) and node_rotate_right, as one function of the memory
  function Rotated(mem: Mem, x: Ref, dir: bool): Mem
    requires x in mem && Kid(mem[x], !dir) in mem
  {
    var y := Kid(mem[x], !dir);
    var b, p := Kid(mem[y], dir), mem[x].parent;
    var m1 := mem[x := SetKid(mem[x], !dir, b).(parent := y)];
    var m2 := if b != NIL && b in m1 then m1[b := m1[b].(parent := x)] else m1;
    var m3 := m2[y := SetKid(m2[y], dir, x).(parent := p)];
    if p != NIL && p in m3 then m3[p := SetKid(m3[p], m3[p].left != x, y)] else m3
  }

  ghost function RotatedBelow(mem: Mem, sub: Below, x: Ref, dir: bool): Below
    requires x in mem && x in sub && Kid(mem[x], dir) in sub && Kid(mem[x], !dir) in mem &&
             Kid(mem[Kid(mem[x], !dir)], dir) in sub
  {
    var y := Kid(mem[x], !dir);
    sub[y := sub[x]][x := {x} + sub[Kid(mem[x], dir)] + sub[Kid(mem[y], dir)]]
  }

  // The nodes around a rotation, by name: x turns with its child y, whose child b changes sides.
  ghost predicate Around(mem: Mem, x: Ref, y: Ref, a: Ref, b: Ref, d: Ref, p: Ref, dir: bool) {
    x in mem && y in mem && a in mem && b in mem && d in mem && p in mem && x != NIL && y != NIL &&
    y == Kid(mem[x], !dir) && a == Kid(mem[x], dir) && b == Kid(mem[y], dir) && d == Kid(mem[y], !dir) &&
    p == mem[x].parent &&
    x != y && b != x && b != y && p != x && p != y && a != x && a != y && d != x && d != y &&
    (b != NIL ==> b != p && b != a && b != d) && (a != NIL ==> a != p && a != d) && (d != NIL ==> d != p)
  }

  lemma IsAround(mem: Mem, root: Ref, sub: Below, x: Ref, dir: bool)
    requires Sets(mem, root, sub) && x in Nodes(mem) && Kid(mem[x], !dir) != NIL
    ensures var y := Kid(mem[x], !dir);
            y in mem && Around(mem, x, y, Kid(mem[x], dir), Kid(mem[y], dir), Kid(mem[y], !dir), mem[x].parent, dir)
  {
    var y := Kid(mem[x], !dir);
    KidBelow(mem, root, sub, x, dir);
    KidBelow(mem, root, sub, x, !dir);
    KidBelow(mem, root, sub, y, dir);
    KidBelow(mem, root, sub, y, !dir);
    assert LinksAt(mem, root, x) && LinksAt(mem, root, y);
    if mem[x].parent != NIL { ParentAbove(mem, root, sub, x); }
  }

  // What a rotation writes.
  ghost predicate RotatedRecs(mem: Mem, mem': Mem, x: Ref, y: Ref, b: Ref, p: Ref, dir: bool)
    requires x in mem && y in mem && b in mem && p in mem
  {
    mem'.Keys == mem.Keys && mem'[x] == SetKid(mem[x], !dir, b).(parent := y) &&
    mem'[y] == SetKid(mem[y], dir, x).(parent := p) &&
    (b != NIL ==> mem'[b] == mem[b].(parent := x)) && (p != NIL ==> mem'[p] == SetKid(mem[p], mem[p].left != x, y)) &&
    forall n :: n in mem && n != x && n != y && (n != b || b == NIL) && (n != p || p == NIL) ==> mem'[n] == mem[n]
  }

  lemma RotatedIs(mem: Mem, x: Ref, y: Ref, a: Ref, b: Ref, d: Ref, p: Ref, dir: bool)
    requires Around(mem, x, y, a, b, d, p, dir)
    ensures RotatedRecs(mem, Rotated(mem, x, dir), x, y, b, p, dir)
  {}

  lemma RotateLinks(mem: Mem, mem': Mem, root: Ref, x: Ref, y: Ref, a: Ref, b: Ref, d: Ref, p: Ref, dir: bool)
    requires Links(mem, root) && Around(mem, x, y, a, b, d, p, dir) && RotatedRecs(mem, mem', x, y, b, p, dir)
    ensures Links(mem', if p == NIL then y else root)
  {
    var root' := if p == NIL then y else root;
    forall n | n in mem' && n != NIL ensures LinksAt(mem', root', n) {
      if n == x || n == y || n == b || n == p {
        RotatedNear(mem, mem', root, x, y, a, b, d, p, dir, n);
      } else {
        RotatedFar(mem, mem', root, x, y, a, b, d, p, dir, n);
      }
    }
  }

  lemma RotatedNear(mem: Mem, mem': Mem, root: Ref, x: Ref, y: Ref, a: Ref, b: Ref, d: Ref, p: Ref, dir: bool, n: Ref)
    requires Links(mem, root) && Around(mem, x, y, a, b, d, p, dir) && RotatedRecs(mem, mem', x, y, b, p, dir)
    requires n != NIL && (n == x || n == y || n == b || n == p)
    ensures n in mem' && LinksAt(mem', if p == NIL then y else root, n)
  {
    assert LinksAt(mem, root, x) && LinksAt(mem, root, y);
    assert b != NIL ==> LinksAt(mem, root, b);
    assert p != NIL ==> LinksAt(mem, root, p);
    hide Links;
    if n == b && n != x && n != y { KidsOfB(mem, mem', x, y, a, b, d, p, dir, root); }
    if n == p && n != x && n != y && n != b { KidsOfP(mem, mem', x, y, a, b, d, p, dir, root); }
  }

  lemma KidsOfB(mem: Mem, mem': Mem, x: Ref, y: Ref, a: Ref, b: Ref, d: Ref, p: Ref, dir: bool, root: Ref)
    requires Around(mem, x, y, a, b, d, p, dir) && RotatedRecs(mem, mem', x, y, b, p, dir) && b != NIL && NIL in mem
    requires LinksAt(mem, root, x) && LinksAt(mem, root, y) && LinksAt(mem, root, b)
    ensures LinksAt(mem', if p == NIL then y else root, b)
  {}

  lemma KidsOfP(mem: Mem, mem': Mem, x: Ref, y: Ref, a: Ref, b: Ref, d: Ref, p: Ref, dir: bool, root: Ref)
    requires Around(mem, x, y, a, b, d, p, dir) && RotatedRecs(mem, mem', x, y, b, p, dir) && p != NIL && NIL in mem
    requires LinksAt(mem, root, x) && LinksAt(mem, root, y) && LinksAt(mem, root, p)
    ensures LinksAt(mem', root, p)
  {}

  lemma RotatedFar(mem: Mem, mem': Mem, root: Ref, x: Ref, y: Ref, a: Ref, b: Ref, d: Ref, p: Ref, dir: bool, n: Ref)
    requires Links(mem, root) && Around(mem, x, y, a, b, d, p, dir) && RotatedRecs(mem, mem', x, y, b, p, dir)
    requires n in mem && n != NIL && n != x && n != y && n != b && n != p
    ensures LinksAt(mem', if p == NIL then y else root, n)
  {
    assert LinksAt(mem, root, x) && LinksAt(mem, root, y) && LinksAt(mem, root, n);
    hide Links;
  }

  ghost predicate RotatedSets(sub: Below, sub': Below, x: Ref, y: Ref, a: Ref, b: Ref) {
    x in sub && y in sub && a in sub && b in sub && sub'.Keys == sub.Keys && sub'[y] == sub[x] &&
    sub'[x] == {x} + sub[a] + sub[b] &&
    forall n :: n in sub && n != x && n != y ==> sub'[n] == sub[n]
  }

  lemma RotateSets(mem: Mem, mem': Mem, root: Ref, sub: Below, sub': Below, x: Ref, y: Ref, a: Ref, b: Ref, d: Ref,
                   p: Ref, dir: bool)
    requires Sets(mem, root, sub) && Around(mem, x, y, a, b, d, p, dir) && RotatedRecs(mem, mem', x, y, b, p, dir)
    requires RotatedSets(sub, sub', x, y, a, b)
    ensures Sets(mem', if p == NIL then y else root, sub')
  {
    RotateLinks(mem, mem', root, x, y, a, b, d, p, dir);
    assert LinksAt(mem, root, x) && LinksAt(mem, root, y) && BelowAt(mem, sub, x) && BelowAt(mem, sub, y);
    assert Nodes(mem') == Nodes(mem);
    forall n | n in mem' && n != NIL ensures BelowAt(mem', sub', n) {
      assert LinksAt(mem, root, n) && BelowAt(mem, sub, n);
      RotatedBelowAt(mem, mem', root, sub, sub', x, y, a, b, d, p, dir, n);
    }
    hide Links;
  }

  lemma RotatedBelowAt(mem: Mem, mem': Mem, root: Ref, sub: Below, sub': Below, x: Ref, y: Ref, a: Ref, b: Ref, d: Ref,
                       p: Ref, dir: bool, n: Ref)
    requires Around(mem, x, y, a, b, d, p, dir) && RotatedRecs(mem, mem', x, y, b, p, dir) &&
             RotatedSets(sub, sub', x, y, a, b)
    requires n in mem && n != NIL && sub.Keys == mem.Keys && LinksAt(mem, root, x) && LinksAt(mem, root, y) &&
             LinksAt(mem, root, n)
    requires BelowAt(mem, sub, x) && BelowAt(mem, sub, y) && BelowAt(mem, sub, n)
    ensures mem'[n].left in sub' && mem'[n].right in sub' && BelowAt(mem', sub', n)
  {
    if n != x && n != y && n != p {
      assert mem[n].left != x && mem[n].right != x && mem[n].left != y && mem[n].right != y;
    }
  }

  lemma RotateShape(mem: Mem, root: Ref, sub: Below, x: Ref, dir: bool)
    requires Shape(mem, root, sub) && x in Nodes(mem) && Kid(mem[x], !dir) != NIL
    ensures Kid(mem[x], !dir) in mem && Kid(mem[x], dir) in sub && Kid(mem[Kid(mem[x], !dir)], dir) in sub
    ensures Shape(Rotated(mem, x, dir), if mem[x].parent == NIL then Kid(mem[x], !dir) else root, RotatedBelow(mem, sub, x, dir))
  {
    hide Rotated, RotatedBelow, Links, RotatedRecs, OrderAt, BelowAt;
    IsAround(mem, root, sub, x, dir);
    var y := Kid(mem[x], !dir);
    var a, b, d, p := Kid(mem[x], dir), Kid(mem[y], dir), Kid(mem[y], !dir), mem[x].parent;
    var mem', sub' := Rotated(mem, x, dir), RotatedBelow(mem, sub, x, dir);
    RotatedIs(mem, x, y, a, b, d, p, dir);
    RotatedBelowIs(mem, sub, x, y, a, b, dir);
    RotateSets(mem, mem', root, sub, sub', x, y, a, b, d, p, dir);
    RotateOrder(mem, mem', root, sub, sub', x, y, a, b, d, p, dir);
  }

  lemma RotatedBelowIs(mem: Mem, sub: Below, x: Ref, y: Ref, a: Ref, b: Ref, dir: bool)
    requires x in mem && y in mem && x in sub && y in sub && a in sub && b in sub && x != y
    requires y == Kid(mem[x], !dir) && a == Kid(mem[x], dir) && b == Kid(mem[y], dir)
    ensures RotatedSets(sub, RotatedBelow(mem, sub, x, dir), x, y, a, b)
  {}

  lemma RotateOrder(mem: Mem, mem': Mem, root: Ref, sub: Below, sub': Below, x: Ref, y: Ref, a: Ref, b: Ref, d: Ref,
                    p: Ref, dir: bool)
    requires Shape(mem, root, sub) && Around(mem, x, y, a, b, d, p, dir) && RotatedRecs(mem, mem', x, y, b, p, dir)
    requires RotatedSets(sub, sub', x, y, a, b) && Links(mem', if p == NIL then y else root)
    ensures forall n :: n in mem' && n != NIL ==> OrderAt(mem', sub', n)
  {
    assert LinksAt(mem, root, x) && LinksAt(mem, root, y) && BelowAt(mem, sub, x) && BelowAt(mem, sub, y);
    assert OrderAt(mem, sub, x) && OrderAt(mem, sub, y) && y in sub[y];
    SameKeys(mem, mem', x, y, b, p, dir);
    forall n | n in mem' && n != NIL ensures OrderAt(mem', sub', n) {
      assert LinksAt(mem, root, n) && OrderAt(mem, sub, n) && LinksAt(mem', if p == NIL then y else root, n);
      if n == y {
        OrderOfY(mem, sub, x, y, a, b, d, dir);
        YInOrder(mem, mem', sub, sub', x, y, a, b, d, dir);
      } else {
        KidsShrink(mem, mem', root, sub, sub', x, y, a, b, d, p, dir, n);
        StillOrdered(mem, mem', sub, sub', n);
      }
    }
  }

  lemma SameKeys(mem: Mem, mem': Mem, x: Ref, y: Ref, b: Ref, p: Ref, dir: bool)
    requires x in mem && y in mem && b in mem && p in mem && RotatedRecs(mem, mem', x, y, b, p, dir)
    ensures forall q :: q in mem ==> mem'[q].key == mem[q].key
  {}

  // Nothing is above the turning node's side that was not there before.
  lemma KidsShrink(mem: Mem, mem': Mem, root: Ref, sub: Below, sub': Below, x: Ref, y: Ref, a: Ref, b: Ref, d: Ref,
                   p: Ref, dir: bool, n: Ref)
    requires Around(mem, x, y, a, b, d, p, dir) && RotatedRecs(mem, mem', x, y, b, p, dir) &&
             RotatedSets(sub, sub', x, y, a, b)
    requires n in mem && n != NIL && n != y && sub.Keys == mem.Keys && LinksAt(mem, root, x) && LinksAt(mem, root, y) &&
             LinksAt(mem, root, n)
    requires BelowAt(mem, sub, y)
    ensures mem'[n].left in sub' && mem'[n].right in sub'
    ensures sub'[mem'[n].left] <= sub[mem[n].left] && sub'[mem'[n].right] <= sub[mem[n].right]
  {
    if n != x && n != p {
      assert mem[n].left != x && mem[n].right != x && mem[n].left != y && mem[n].right != y;
    }
  }

  lemma StillOrdered(mem: Mem, mem': Mem, sub: Below, sub': Below, n: Ref)
    requires n in mem && n in mem' && mem'.Keys == mem.Keys && (forall q :: q in mem ==> mem'[q].key == mem[q].key)
    requires mem[n].left in sub && mem[n].right in sub && mem'[n].left in sub' && mem'[n].right in sub'
    requires sub'[mem'[n].left] <= sub[mem[n].left] && sub'[mem'[n].right] <= sub[mem[n].right] && OrderAt(mem, sub, n)
    ensures OrderAt(mem', sub', n)
  {}

  lemma YInOrder(mem: Mem, mem': Mem, sub: Below, sub': Below, x: Ref, y: Ref, a: Ref, b: Ref, d: Ref, dir: bool)
    requires x in mem && y in mem && mem'.Keys == mem.Keys && a in sub && b in sub && d in sub && y in sub && x in sub
    requires d == Kid(mem[y], !dir) && d != x && d != y && b == Kid(mem[y], dir)
    requires Kid(mem'[y], dir) == x && Kid(mem'[y], !dir) == d && RotatedSets(sub, sub', x, y, a, b) &&
             OrderAt(mem, sub, y)
    requires forall q :: q in mem ==> mem'[q].key == mem[q].key
    requires forall q :: q in {x} + sub[a] + sub[b] ==> q in mem && (if dir then mem[q].key > mem[y].key else mem[q].key < mem[y].key)
    ensures OrderAt(mem', sub', y)
  {}

  // The turning node and all that stays below it lie on one side of the child that rises.
  lemma OrderOfY(mem: Mem, sub: Below, x: Ref, y: Ref, a: Ref, b: Ref, d: Ref, dir: bool)
    requires x in mem && y in mem && a in sub && b in sub && d in sub && y in sub && x in sub && sub.Keys == mem.Keys
    requires y == Kid(mem[x], !dir) && a == Kid(mem[x], dir) && b == Kid(mem[y], dir) && d == Kid(mem[y], !dir)
    requires OrderAt(mem, sub, x) && OrderAt(mem, sub, y) && y in sub[y]
    ensures forall q :: q in {x} + sub[a] + sub[b] ==> q in mem && (if dir then mem[q].key > mem[y].key else mem[q].key < mem[y].key)
  {
    assert y in sub[Kid(mem[x], !dir)];
  }
}
