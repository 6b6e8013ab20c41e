// The colour of the root (src/structs/map.c): only the root of a tree of one node can be red.
module MapRoot {
  import opened MapTree
  import opened MapColors
  import opened MapSearch
  import opened MapUnlink
  import opened MapRepair

  ghost predicate RootOK(mem: Mem, root: Ref) {
    root in mem && (mem[root].color == Red ==> Nodes(mem) == {root})
  }

  predicate OneKid(r: Rec) { (r.left == NIL) != (r.right == NIL) }

  // A black node of black height 0 is the sentinel.
  lemma NoBlackBelow(mem: Mem, root: Ref, sub: Below, bh: Heights, n: Ref)
    requires Sets(mem, root, sub) && Balanced(mem, bh) && n in mem && mem[n].color == Black && bh[n] == 0
    ensures n == NIL
  {
    if n != NIL {
      assert BlackAt(mem, bh, n) && LinksAt(mem, root, n);
      var l := mem[n].left;
      assert BlackAt(mem, bh, l) && RedAt(mem, l, NIL);
    }
  }

  // An only child is red, and has no children.
  lemma OnlyKidRed(mem: Mem, root: Ref, sub: Below, bh: Heights, d: Ref, y: Ref)
    requires Sets(mem, root, sub) && Balanced(mem, bh) && d in Nodes(mem) && OnlyChild(mem, d, y) && y != NIL
    ensures y in mem && mem[y].color == Red && d in sub && sub[d] == {d, y}
  {
    assert BlackAt(mem, bh, d) && LinksAt(mem, root, d) && BelowAt(mem, sub, d);
    if mem[y].color == Black { NoBlackBelow(mem, root, sub, bh, y); }
    assert BlackAt(mem, bh, y) && RedAt(mem, y, NIL) && LinksAt(mem, root, y) && BelowAt(mem, sub, y);
    NoBlackBelow(mem, root, sub, bh, mem[y].left);
    NoBlackBelow(mem, root, sub, bh, mem[y].right);
  }

  // What is left when the root goes.
  lemma RootTaken(mem: Mem, root: Ref, sub: Below, bh: Heights, d: Ref, y: Ref)
    requires Shape(mem, root, sub) && Balanced(mem, bh) && d in Nodes(mem) && mem[d].parent == NIL &&
             OnlyChild(mem, d, y)
    ensures y in mem && (mem[y].color == Red <==> y != NIL) && (y != NIL ==> Nodes(mem) == {d, y})
  {
    ShapeLinks(mem, root, sub, d);
    if y != NIL { OnlyKidRed(mem, root, sub, bh, d, y); }
  }

  // When another node goes there are two at least.
  lemma RootStays(mem: Mem, root: Ref, sub: Below, d: Ref)
    requires Shape(mem, root, sub) && RootOK(mem, root) && d in Nodes(mem) && mem[d].parent != NIL
    ensures d != root && root in mem && mem[root].color == Black
  {
    ShapeLinks(mem, root, sub, d);
  }

  // The root is below no child.
  lemma NotBelowKid(mem: Mem, root: Ref, sub: Below, node: Ref, d: Ref)
    requires Shape(mem, root, sub) && node in Nodes(mem) && mem[node].left in sub && d in Nodes(mem) &&
             d in sub[mem[node].left]
    ensures mem[d].parent != NIL
  {
    KidBelow(mem, root, sub, node, false);
    BelowTrans(mem, root, sub, mem[node].left, d);
    ShapeLinks(mem, root, sub, d);
  }

  lemma ColorsStay(mem: Mem, node: Ref, d: Ref, y: Ref, z: Ref, n: Ref)
    requires node in mem && d in mem && y in mem && z in mem && n in mem && n != d
    ensures var mem' := Relinked(Moved(mem, node, d), d, y, z) - {d}; n in mem' && mem'[n].color == mem[n].color
  {}

  // A key that is the root's is found at the root.
  lemma RootHasKey(mem: Mem, root: Ref, sub: Below, node: Ref)
    requires Shape(mem, root, sub) && UniqueKeys(mem) && node in Nodes(mem)
    ensures root in mem && (mem[root].key == mem[node].key <==> node == root)
  {}

  lemma RootHasNoParent(mem: Mem, root: Ref, sub: Below)
    requires Shape(mem, root, sub)
    ensures root in mem && mem[root].parent == NIL && mem[NIL].color == Black
  {
    if root != NIL { ShapeLinks(mem, root, sub, root); }
  }
}
