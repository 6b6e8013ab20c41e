// Taking a node with at most one child out of a red-black map (mapnode_remove in src/structs/map.c).
module MapUnlink {
  import opened MapTree
  import opened MapColors
  import opened MapRepair
  import opened MapSearch

  // d leaves; its child y takes its place below its parent z.
  ghost predicate Leaves(mem: Mem, root: Ref, sub: Below, d: Ref, y: Ref, z: Ref) {
    Sets(mem, root, sub) && d in Nodes(mem) && y in mem && z in mem && z == mem[d].parent && OnlyChild(mem, d, y)
  }

  // What becomes of the records, whatever becomes of keys and values.
  ghost predicate UnlinkedRec(mem: Mem, mem': Mem, d: Ref, y: Ref, z: Ref, n: Ref) {
    z in mem && n in mem && n in mem' && mem'[n].color == mem[n].color &&
    mem'[n].parent == (if n == y then z else mem[n].parent) &&
    mem'[n].left == (if n == z && mem[z].left == d then y else mem[n].left) &&
    mem'[n].right == (if n == z && mem[z].left != d then y else mem[n].right)
  }

  ghost predicate Unlinked(mem: Mem, mem': Mem, d: Ref, y: Ref, z: Ref) {
    NIL in mem && NIL in mem' && mem'.Keys == mem.Keys - {d} && mem'[NIL] == mem[NIL] &&
    forall n {:trigger UnlinkedRec(mem, mem', d, y, z, n)} :: n in mem' && n != NIL ==> UnlinkedRec(mem, mem', d, y, z, n)
  }

  ghost predicate OnlyChild(mem: Mem, d: Ref, y: Ref) {
    d in mem && ((y == mem[d].left && mem[d].right == NIL) || (y == mem[d].right && mem[d].left == NIL))
  }

  ghost function BelowWithout(sub: Below, d: Ref): Below { map n | n in sub.Keys - {d} :: sub[n] - {d} }

  function Without(bh: Heights, d: Ref): Heights { map n | n in bh.Keys - {d} :: bh[n] }

  lemma LeavesFacts(mem: Mem, root: Ref, sub: Below, d: Ref, y: Ref, z: Ref)
    requires Leaves(mem, root, sub, d, y, z)
    ensures LinksAt(mem, root, d) && BelowAt(mem, sub, d) && d != NIL && NIL in mem && sub.Keys == mem.Keys &&
            sub[NIL] == {}
    ensures y != d && z != d && sub[d] == {d} + sub[y] && d !in sub[y] &&
            (y != NIL ==> y in sub[d] && LinksAt(mem, root, y) && mem[y].parent == d)
    ensures z != NIL ==> LinksAt(mem, root, z) && BelowAt(mem, sub, z) && z != y && Kid(mem[z], mem[z].left != d) == d && d in sub[z]
  {
    assert LinksAt(mem, root, d) && BelowAt(mem, sub, d);
    if y != NIL { assert LinksAt(mem, root, y) && BelowAt(mem, sub, y); }
    if z != NIL {
      assert LinksAt(mem, root, z) && BelowAt(mem, sub, z);
      ParentAbove(mem, root, sub, d);
    }
  }

  lemma UnlinkedAt(mem: Mem, mem': Mem, root: Ref, sub: Below, d: Ref, y: Ref, z: Ref, n: Ref)
    requires d in mem && z in mem && y in mem && Unlinked(mem, mem', d, y, z) && n in mem' && n in mem && n != NIL &&
             n != d
    requires LinksAt(mem, root, d) && LinksAt(mem, root, n) && d != NIL && y != d && z != d && z == mem[d].parent &&
             OnlyChild(mem, d, y)
    requires y != NIL ==> LinksAt(mem, root, y) && mem[y].parent == d
    requires z != NIL ==> LinksAt(mem, root, z) && z != y && Kid(mem[z], mem[z].left != d) == d
    ensures LinksAt(mem', if z == NIL then y else root, n)
  {
    assert UnlinkedRec(mem, mem', d, y, z, n);
    assert mem'[n].left in mem' && mem'[n].right in mem' &&
           mem'[n].parent in mem' by { hide LinksAt; UnlinkedKids(mem, mem', root, d, y, z, n); }
    UnlinkedKid(mem, mem', root, d, y, z, n, mem'[n].left);
    UnlinkedKid(mem, mem', root, d, y, z, n, mem'[n].right);
    UnlinkedParent(mem, mem', root, d, y, z, n);
  }

  lemma UnlinkedKids(mem: Mem, mem': Mem, root: Ref, d: Ref, y: Ref, z: Ref, n: Ref)
    requires d in mem && z in mem && y in mem && Unlinked(mem, mem', d, y, z) && n in mem' && n in mem && n != NIL &&
             n != d
    requires LinksAt(mem, root, d) && LinksAt(mem, root, n) && d != NIL && y != d && z != d && z == mem[d].parent &&
             OnlyChild(mem, d, y)
    requires z != NIL ==> LinksAt(mem, root, z) && Kid(mem[z], mem[z].left != d) == d
    ensures mem'[n].left in mem' && mem'[n].right in mem' && mem'[n].parent in mem'
    ensures mem[n].left == d || mem[n].right == d ==> n == z
    ensures mem[n].parent == d ==> n == y
  {
    assert UnlinkedRec(mem, mem', d, y, z, n);
  }

  lemma UnlinkedKid(mem: Mem, mem': Mem, root: Ref, d: Ref, y: Ref, z: Ref, n: Ref, c: Ref)
    requires d in mem && z in mem && y in mem && Unlinked(mem, mem', d, y, z) && n in mem' && n in mem && n != NIL &&
             n != d
    requires LinksAt(mem, root, d) && LinksAt(mem, root, n) && d != NIL && y != d && z != d && z == mem[d].parent &&
             OnlyChild(mem, d, y)
    requires y != NIL ==> LinksAt(mem, root, y) && mem[y].parent == d
    requires z != NIL ==> LinksAt(mem, root, z) && z != y && Kid(mem[z], mem[z].left != d) == d
    requires UnlinkedRec(mem, mem', d, y, z, n) && (c == mem'[n].left || c == mem'[n].right) && c in mem'
    ensures c != NIL ==> mem'[c].parent == n
    ensures mem'[n].left == mem'[n].right ==> mem'[n].left == NIL
  {
    if c != NIL { assert UnlinkedRec(mem, mem', d, y, z, c); }
  }

  lemma UnlinkedParent(mem: Mem, mem': Mem, root: Ref, d: Ref, y: Ref, z: Ref, n: Ref)
    requires d in mem && z in mem && y in mem && Unlinked(mem, mem', d, y, z) && n in mem' && n in mem && n != NIL &&
             n != d
    requires LinksAt(mem, root, d) && LinksAt(mem, root, n) && d != NIL && y != d && z != d && z == mem[d].parent &&
             OnlyChild(mem, d, y)
    requires y != NIL ==> LinksAt(mem, root, y) && mem[y].parent == d
    requires z != NIL ==> LinksAt(mem, root, z) && z != y && Kid(mem[z], mem[z].left != d) == d
    requires UnlinkedRec(mem, mem', d, y, z, n) && mem'[n].parent in mem'
    ensures (mem'[n].parent == NIL <==> n == if z == NIL then y else root) &&
            (mem'[n].parent != NIL ==> mem'[mem'[n].parent].left == n || mem'[mem'[n].parent].right == n)
  {
    var p := mem'[n].parent;
    if p != NIL { assert UnlinkedRec(mem, mem', d, y, z, p); }
  }

  lemma UnlinkedSet(mem: Mem, mem': Mem, root: Ref, sub: Below, d: Ref, y: Ref, z: Ref, n: Ref)
    requires d in mem && z in mem && y in mem && Unlinked(mem, mem', d, y, z) && n in mem' && n in mem && n != NIL &&
             n != d && sub.Keys == mem.Keys
    requires LinksAt(mem, root, d) && LinksAt(mem, root, n) && d != NIL && y != d && z != d && z == mem[d].parent &&
             OnlyChild(mem, d, y)
    requires sub[d] == {d} + sub[y] && d !in sub[y] && BelowAt(mem, sub, n)
    requires z != NIL ==> LinksAt(mem, root, z) && Kid(mem[z], mem[z].left != d) == d
    ensures BelowAt(mem', BelowWithout(sub, d), n)
    ensures mem'[n].left in BelowWithout(sub, d) && BelowWithout(sub, d)[mem'[n].left] == sub[mem[n].left] - {d}
    ensures mem'[n].right in BelowWithout(sub, d) && BelowWithout(sub, d)[mem'[n].right] == sub[mem[n].right] - {d}
  {
    UnlinkedKids(mem, mem', root, d, y, z, n);
    assert UnlinkedRec(mem, mem', d, y, z, n);
  }

  lemma UnlinkNode(mem: Mem, mem': Mem, root: Ref, sub: Below, d: Ref, y: Ref, z: Ref, n: Ref)
    requires Leaves(mem, root, sub, d, y, z) && Unlinked(mem, mem', d, y, z) && n in mem' && n != NIL
    ensures n in mem && n != d && LinksAt(mem, root, n) && BelowAt(mem, sub, n)
    ensures LinksAt(mem', if z == NIL then y else root, n) && BelowAt(mem', BelowWithout(sub, d), n)
    ensures var sub' := BelowWithout(sub, d);
            mem'[n].left in sub' && sub'[mem'[n].left] == sub[mem[n].left] - {d} &&
            mem'[n].right in sub' && sub'[mem'[n].right] == sub[mem[n].right] - {d}
  {
    LeavesFacts(mem, root, sub, d, y, z);
    assert LinksAt(mem, root, n) && BelowAt(mem, sub, n);
    hide Sets, LinksAt, BelowAt, BelowWithout, UnlinkedRec;
    UnlinkedAt(mem, mem', root, sub, d, y, z, n);
    UnlinkedSet(mem, mem', root, sub, d, y, z, n);
  }

  lemma UnlinkSets(mem: Mem, mem': Mem, root: Ref, sub: Below, d: Ref, y: Ref, z: Ref)
    requires Leaves(mem, root, sub, d, y, z) && Unlinked(mem, mem', d, y, z)
    ensures Sets(mem', if z == NIL then y else root, BelowWithout(sub, d)) && Nodes(mem') == Nodes(mem) - {d}
  {
    hide LinksAt, BelowAt, UnlinkedRec;
    var root', sub' := if z == NIL then y else root, BelowWithout(sub, d);
    UnlinkRoot(mem, root, sub, d, y, z);
    forall n | n in mem' && n != NIL ensures LinksAt(mem', root', n) && BelowAt(mem', sub', n) {
      UnlinkNode(mem, mem', root, sub, d, y, z, n);
    }
    assert sub[root] == Nodes(mem);
  }

  lemma UnlinkRoot(mem: Mem, root: Ref, sub: Below, d: Ref, y: Ref, z: Ref)
    requires Leaves(mem, root, sub, d, y, z)
    ensures d != NIL && y != d && (z == NIL <==> d == root) && sub[d] - {d} == sub[y] - {d}
  {
    LeavesFacts(mem, root, sub, d, y, z);
    hide Sets;
  }

  // ----- order -----

  ghost predicate RekeyedRec(mem: Mem, mem': Mem, node: Ref, d: Ref, n: Ref) {
    n in mem && n in mem' && d in mem &&
    mem'[n].key == (if n == node then mem[d].key else mem[n].key) &&
    mem'[n].val == (if n == node then mem[d].val else mem[n].val)
  }

  // Keys stay, except that node takes the key of d, the largest one below its left child.
  ghost predicate Rekeyed(mem: Mem, mem': Mem, sub: Below, node: Ref, d: Ref) {
    node in mem && d in mem && node in sub && mem[node].left in sub && mem[node].right in sub &&
    (node != d ==> d in sub[mem[node].left] && forall x :: x in sub[mem[node].left] ==> x in mem && (x == d || mem[x].key < mem[d].key)) &&
    forall n {:trigger RekeyedRec(mem, mem', node, d, n)} :: n in mem' && n != NIL ==> RekeyedRec(mem, mem', node, d, n)
  }

  lemma RekeyedOrder(mem: Mem, mem': Mem, sub: Below, sub': Below, node: Ref, d: Ref, n: Ref)
    requires Rekeyed(mem, mem', sub, node, d) && n in mem' && n in mem && n != NIL && d !in mem' && node != NIL
    requires OrderAt(mem, sub, n) && OrderAt(mem, sub, node) && mem'[n].left in sub' && mem'[n].right in sub'
    requires sub'[mem'[n].left] == sub[mem[n].left] - {d} && sub'[mem'[n].right] == sub[mem[n].right] - {d}
    requires forall x :: x in sub'[mem'[n].left] || x in sub'[mem'[n].right] ==> x in mem' && x != NIL
    requires node in sub[mem[n].left] ==> d in sub[mem[n].left]
    requires node in sub[mem[n].right] ==> d in sub[mem[n].right]
    ensures OrderAt(mem', sub', n)
  {
    forall x | x in sub'[mem'[n].left] ensures mem'[x].key < mem'[n].key {
      assert x in sub[mem[n].left] && RekeyedRec(mem, mem', node, d, x) && RekeyedRec(mem, mem', node, d, n);
    }
    forall x | x in sub'[mem'[n].right] ensures mem'[x].key > mem'[n].key {
      assert x in sub[mem[n].right] && RekeyedRec(mem, mem', node, d, x) && RekeyedRec(mem, mem', node, d, n);
    }
  }

  lemma UnlinkShape(mem: Mem, mem': Mem, root: Ref, sub: Below, node: Ref, d: Ref, y: Ref, z: Ref)
    requires Shape(mem, root, sub) && Leaves(mem, root, sub, d, y, z) && Unlinked(mem, mem', d, y, z)
    requires node in Nodes(mem) && Rekeyed(mem, mem', sub, node, d)
    ensures Shape(mem', if z == NIL then y else root, BelowWithout(sub, d)) && Nodes(mem') == Nodes(mem) - {d}
  {
    hide Sets, LinksAt, BelowAt, BelowWithout, UnlinkedRec, OrderAt, Rekeyed;
    var sub' := BelowWithout(sub, d);
    UnlinkSets(mem, mem', root, sub, d, y, z);
    ShapeLinks(mem, root, sub, node);
    forall n | n in mem' && n != NIL ensures OrderAt(mem', sub', n) {
      UnlinkNode(mem, mem', root, sub, d, y, z, n);
      UnlinkOrder(mem, mem', root, sub, sub', node, d, n);
    }
  }

  // Who has node below a child has d there.
  lemma BelowThrough(mem: Mem, root: Ref, sub: Below, c: Ref, node: Ref, d: Ref)
    requires Sets(mem, root, sub) && c in mem && node in sub[c] && node in Nodes(mem) && mem[node].left in mem &&
             d in sub[mem[node].left]
    ensures d in sub[c] && d in sub[node]
  {
    assert BelowAt(mem, sub, node);
    BelowTrans(mem, root, sub, c, node);
  }

  lemma UnlinkOrder(mem: Mem, mem': Mem, root: Ref, sub: Below, sub': Below, node: Ref, d: Ref, n: Ref)
    requires Shape(mem, root, sub) && Rekeyed(mem, mem', sub, node, d) && n in mem' && n in mem && n != NIL &&
             mem'.Keys == mem.Keys - {d} && node in Nodes(mem)
    requires mem'[n].left in sub' && mem'[n].right in sub' && d in Nodes(mem) && LinksAt(mem, root, n) &&
             LinksAt(mem, root, node)
    requires sub'[mem'[n].left] == sub[mem[n].left] - {d} && sub'[mem'[n].right] == sub[mem[n].right] - {d}
    ensures OrderAt(mem', sub', n)
  {
    var l, r := mem[n].left, mem[n].right;
    assert OrderAt(mem, sub, n) && OrderAt(mem, sub, node);
    if node != d && node in sub[l] { BelowThrough(mem, root, sub, l, node, d); }
    if node != d && node in sub[r] { BelowThrough(mem, root, sub, r, node, d); }
    forall x | x in sub[l] || x in sub[r] ensures x in mem && x != NIL {
      if x in sub[l] { BelowTrans(mem, root, sub, l, x); } else { BelowTrans(mem, root, sub, r, x); }
    }
    hide Shape;
    RekeyedOrder(mem, mem', sub, sub', node, d, n);
  }

  // ----- colours -----

  lemma UnlinkedBlack(mem: Mem, mem': Mem, root: Ref, bh: Heights, d: Ref, y: Ref, z: Ref, n: Ref)
    requires d in mem && z in mem && y in mem && Unlinked(mem, mem', d, y, z) && n in mem' && n in mem && n != NIL &&
             n != d && bh.Keys == mem.Keys
    requires LinksAt(mem, root, d) && LinksAt(mem, root, n) && d != NIL && y != d && z != d && z == mem[d].parent &&
             OnlyChild(mem, d, y)
    requires z != NIL ==> LinksAt(mem, root, z) && Kid(mem[z], mem[z].left != d) == d
    requires BlackAt(mem, bh, n) && BlackAt(mem, bh, d)
    ensures n != z || mem[d].color == Red ==> BlackAt(mem', Without(bh, d), n)
    ensures n == z && mem[d].color == Black ==>
              var side, bh' := mem[z].left != d, Without(bh, d);
              Kid(mem'[z], side) == y && y in bh' && bh'[z] == bh'[y] + Weight(mem', y) + 1 &&
              Kid(mem'[z], !side) in bh' && bh'[z] == bh'[Kid(mem'[z], !side)] + Weight(mem', Kid(mem'[z], !side))
  {
    UnlinkedWeight(mem, mem', d, y, z);
    UnlinkedKids(mem, mem', root, d, y, z, n);
    assert UnlinkedRec(mem, mem', d, y, z, n);
    if n == z {
      BlackSides(mem, bh, z, mem[z].left != d);
      if mem[d].color == Red { BlackSides(mem', Without(bh, d), z, mem[z].left != d); }
    }
  }

  lemma UnlinkedWeight(mem: Mem, mem': Mem, d: Ref, y: Ref, z: Ref)
    requires d in mem && z in mem && NIL in mem && d != NIL && Unlinked(mem, mem', d, y, z)
    ensures forall n :: n in mem' ==> Weight(mem', n) == Weight(mem, n)
  {
    forall n | n in mem' ensures Weight(mem', n) == Weight(mem, n) {
      if n != NIL { assert UnlinkedRec(mem, mem', d, y, z, n); }
    }
  }

  lemma UnlinkedRed(mem: Mem, mem': Mem, root: Ref, d: Ref, y: Ref, z: Ref, n: Ref)
    requires d in mem && z in mem && y in mem && Unlinked(mem, mem', d, y, z) && n in mem' && n in mem && n != NIL &&
             n != d
    requires LinksAt(mem, root, d) && LinksAt(mem, root, n) && d != NIL && y != d && z != d && z == mem[d].parent &&
             OnlyChild(mem, d, y)
    requires z != NIL ==> LinksAt(mem, root, z) && Kid(mem[z], mem[z].left != d) == d
    requires RedAt(mem, n, NIL) && RedAt(mem, d, NIL) && (mem[NIL].color == Black)
    ensures RedAt(mem', n, y) && (n != z || mem[d].color == Red ==> RedAt(mem', n, NIL))
  {
    UnlinkedWeight(mem, mem', d, y, z);
    UnlinkedKids(mem, mem', root, d, y, z, n);
    assert UnlinkedRec(mem, mem', d, y, z, n);
    assert mem[n].left in mem && mem[n].right in mem;
    assert Weight(mem, NIL) == 1;
    if n == z {
      RedSides(mem, z, NIL, mem[z].left != d);
      RedSides(mem', z, NIL, mem[z].left != d);
      RedSides(mem', z, y, mem[z].left != d);
    }
  }

  lemma UnlinkColors(mem: Mem, mem': Mem, root: Ref, sub: Below, bh: Heights, d: Ref, y: Ref, z: Ref, n: Ref)
    requires Balanced(mem, bh) && Leaves(mem, root, sub, d, y, z) && Unlinked(mem, mem', d, y, z) && n in mem' &&
             n != NIL
    ensures RedAt(mem', n, y) && (n != z || mem[d].color == Red ==> BlackAt(mem', Without(bh, d), n) && RedAt(mem', n, NIL))
    ensures n == z && mem[d].color == Black ==>
              var side, bh' := mem[z].left != d, Without(bh, d);
              Kid(mem'[z], side) == y && y in bh' && bh'[z] == bh'[y] + Weight(mem', y) + 1 &&
              Kid(mem'[z], !side) in bh' && bh'[z] == bh'[Kid(mem'[z], !side)] + Weight(mem', Kid(mem'[z], !side))
  {
    LeavesFacts(mem, root, sub, d, y, z);
    assert mem[NIL] == NIL_NODE;
    UnlinkNode(mem, mem', root, sub, d, y, z, n);
    assert BlackAt(mem, bh, n) && BlackAt(mem, bh, d) && RedAt(mem, n, NIL) && RedAt(mem, d, NIL);
    hide Sets, LinksAt, BelowAt, BelowWithout, UnlinkedRec, BlackAt, RedAt, Without;
    UnlinkedBlack(mem, mem', root, bh, d, y, z, n);
    UnlinkedRed(mem, mem', root, d, y, z, n);
  }

  // A red node, or the root, leaves: all is well.  A black node leaves: its child's paths are short.
  lemma Unlink(mem: Mem, mem': Mem, root: Ref, sub: Below, bh: Heights, node: Ref, d: Ref, y: Ref, z: Ref)
    requires Shape(mem, root, sub) && Balanced(mem, bh) && Leaves(mem, root, sub, d, y, z) &&
             Unlinked(mem, mem', d, y, z)
    requires node in Nodes(mem) && Rekeyed(mem, mem', sub, node, d)
    ensures var root', sub' := if z == NIL then y else root, BelowWithout(sub, d);
            Shape(mem', root', sub') && Nodes(mem') == Nodes(mem) - {d} &&
            if z == NIL || mem[d].color == Red then Balanced(mem', Without(bh, d))
            else RemoveState(mem', root, sub', Without(bh, d), y, z, mem[z].left != d)
  {
    hide LinksAt, BelowAt, BelowWithout, UnlinkedRec, OrderAt, Rekeyed, RekeyedRec, BlackAt, RedAt;
    var sub', bh' := BelowWithout(sub, d), Without(bh, d);
    UnlinkShape(mem, mem', root, sub, node, d, y, z);
    UnlinkPlaces(mem, mem', root, sub, d, y, z);
    forall n | n in mem' && n != NIL
      ensures RedAt(mem', n, y) && (n != z || mem[d].color == Red ==> BlackAt(mem', bh', n) && RedAt(mem', n, NIL))
    {
      UnlinkColors(mem, mem', root, sub, bh, d, y, z, n);
    }
    if z != NIL && mem[d].color == Black { UnlinkColors(mem, mem', root, sub, bh, d, y, z, z); }
    hide Shape, Sets;
  }

  lemma UnlinkPlaces(mem: Mem, mem': Mem, root: Ref, sub: Below, d: Ref, y: Ref, z: Ref)
    requires Leaves(mem, root, sub, d, y, z) && Unlinked(mem, mem', d, y, z)
    ensures y in mem' && z in mem' && d != NIL && (z != NIL ==> root != NIL && y != root)
  {
    LeavesFacts(mem, root, sub, d, y, z);
    assert root != NIL ==> LinksAt(mem, root, root);
  }

  // ----- the largest node on the left -----

  // All below the left child of node is below cur or smaller.
  ghost predicate Largest(mem: Mem, sub: Below, top: Ref, cur: Ref) {
    top in sub && cur in sub && cur in mem && cur in sub[top] && sub[cur] <= sub[top] &&
    forall x :: x in sub[top] ==> x in mem && (x in sub[cur] || mem[x].key < mem[cur].key)
  }

  lemma LargestStarts(mem: Mem, root: Ref, sub: Below, top: Ref)
    requires Shape(mem, root, sub) && top in Nodes(mem)
    ensures Largest(mem, sub, top, top)
  {
    assert BelowAt(mem, sub, top);
    forall x | x in sub[top] ensures x in mem { BelowTrans(mem, root, sub, top, x); }
  }

  lemma LargestStep(mem: Mem, root: Ref, sub: Below, top: Ref, cur: Ref)
    requires Shape(mem, root, sub) && Largest(mem, sub, top, cur) && cur in Nodes(mem) && mem[cur].right != NIL
    ensures mem[cur].right in Nodes(mem) && Largest(mem, sub, top, mem[cur].right) && sub[mem[cur].right] < sub[cur]
  {
    assert BelowAt(mem, sub, cur) && OrderAt(mem, sub, cur) && LinksAt(mem, root, cur);
    KidBelow(mem, root, sub, cur, true);
  }

  lemma LargestEnds(mem: Mem, root: Ref, sub: Below, top: Ref, cur: Ref)
    requires Shape(mem, root, sub) && Largest(mem, sub, top, cur) && cur in Nodes(mem) && mem[cur].right == NIL
    ensures forall x :: x in sub[top] ==> x in mem && (x == cur || mem[x].key < mem[cur].key)
  {
    assert BelowAt(mem, sub, cur) && OrderAt(mem, sub, cur);
  }

  // ----- the map -----

  // One key is gone: that of node, whose place the contents of d take.
  lemma UnlinkView(mem: Mem, mem': Mem, sub: Below, node: Ref, d: Ref)
    requires UniqueKeys(mem) && UniqueKeys(mem') && node in Nodes(mem) && d in Nodes(mem) &&
             Rekeyed(mem, mem', sub, node, d) && Nodes(mem') == Nodes(mem) - {d}
    ensures View(mem') == View(mem) - {mem[node].key}
  {
    hide View, UniqueKeys, RekeyedRec;
    forall k | k in View(mem') ensures k in View(mem) && k != mem[node].key && View(mem')[k] == View(mem)[k] {
      var n := ViewKey(mem', k);
      RekeyedFacts(mem, mem', sub, node, d, n);
      var m := if n == node then d else n;
      ViewAt(mem, m);
      ViewAt(mem', n);
      SameNode(mem, m, node);
    }
    forall k | k in View(mem) && k != mem[node].key ensures k in View(mem') {
      var m := ViewKey(mem, k);
      var n := if m == d then node else m;
      assert m != node && n in Nodes(mem');
      RekeyedFacts(mem, mem', sub, node, d, n);
      ViewAt(mem', n);
    }
  }

  lemma RekeyedFacts(mem: Mem, mem': Mem, sub: Below, node: Ref, d: Ref, n: Ref)
    requires Rekeyed(mem, mem', sub, node, d) && n in mem' && n != NIL
    ensures n in mem && d in mem
    ensures mem'[n].key == (if n == node then mem[d].key else mem[n].key) &&
            mem'[n].val == (if n == node then mem[d].val else mem[n].val)
  {
    assert RekeyedRec(mem, mem', node, d, n);
  }

  // ----- the assignments, one after the other -----

  function Moved(mem: Mem, node: Ref, d: Ref): (m: Mem)
    requires node in mem && d in mem
    ensures m.Keys == mem.Keys
  {
    if node != d then mem[node := mem[node].(key := mem[d].key, val := mem[d].val)] else mem
  }

  function Relinked(mem: Mem, d: Ref, y: Ref, z: Ref): (m: Mem)
    requires y in mem && z in mem
    ensures m.Keys == mem.Keys
  {
    var m := if y != NIL then mem[y := mem[y].(parent := z)] else mem;
    if z != NIL then m[z := SetKid(m[z], m[z].left != d, y)] else m
  }

  lemma RelinkedRec(mem: Mem, node: Ref, d: Ref, y: Ref, z: Ref, n: Ref)
    requires node in mem && d in mem && y in mem && z in mem && n in mem && n != NIL && n != d && y != z
    ensures var mem' := Relinked(Moved(mem, node, d), d, y, z) - {d};
            UnlinkedRec(mem, mem', d, y, z, n) && RekeyedRec(mem, mem', node, d, n)
  {}

  // These assignments take d out.
  lemma RelinkedIs(mem: Mem, root: Ref, sub: Below, node: Ref, d: Ref, y: Ref, z: Ref)
    requires Leaves(mem, root, sub, d, y, z) && node in Nodes(mem)
    ensures var mem' := Relinked(Moved(mem, node, d), d, y, z) - {d};
            Unlinked(mem, mem', d, y, z) && forall n {:trigger RekeyedRec(mem, mem', node, d, n)} :: n in mem' && n != NIL ==> RekeyedRec(mem, mem', node, d, n)
  {
    LeavesFacts(mem, root, sub, d, y, z);
    hide Sets, UnlinkedRec, RekeyedRec;
    var mem' := Relinked(Moved(mem, node, d), d, y, z) - {d};
    RelinkedNil(mem, node, d, y, z);
    if y == NIL && z == NIL {
      forall n | n in mem' && n != NIL ensures UnlinkedRec(mem, mem', d, y, z, n) && RekeyedRec(mem, mem', node, d, n) {
        RelinkedAlone(mem, node, d, n);
      }
    } else {
      forall n | n in mem' && n != NIL ensures UnlinkedRec(mem, mem', d, y, z, n) && RekeyedRec(mem, mem', node, d, n) {
        RelinkedRec(mem, node, d, y, z, n);
      }
    }
  }

  lemma RelinkedNil(mem: Mem, node: Ref, d: Ref, y: Ref, z: Ref)
    requires node in mem && d in mem && y in mem && z in mem && NIL in mem && node != NIL && d != NIL
    ensures var mem' := Relinked(Moved(mem, node, d), d, y, z) - {d};
            NIL in mem' && mem'[NIL] == mem[NIL] && mem'.Keys == mem.Keys - {d}
  {}

  lemma RelinkedAlone(mem: Mem, node: Ref, d: Ref, n: Ref)
    requires node in mem && d in mem && NIL in mem && n in mem && n != NIL && n != d
    ensures var mem' := Relinked(Moved(mem, node, d), d, NIL, NIL) - {d};
            UnlinkedRec(mem, mem', d, NIL, NIL, n) && RekeyedRec(mem, mem', node, d, n)
  {}
}
