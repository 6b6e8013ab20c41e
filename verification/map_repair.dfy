// The repairs after an insertion and after a removal, case by case.
module MapRepair {
  import opened MapTree
  import opened MapColors

  ghost predicate HeightsOK(mem: Mem, bh: Heights) { bh.Keys == mem.Keys && NIL in bh && bh[NIL] == 0 }

  // ----- after an insertion -----

  // All is well, except that the red node e may have a red parent.
  ghost predicate InsertState(mem: Mem, root: Ref, sub: Below, bh: Heights, e: Ref) {
    Shape(mem, root, sub) && HeightsOK(mem, bh) && e in Nodes(mem) && mem[e].color == Red && RedAt(mem, e, NIL) &&
    (forall n {:trigger BlackAt(mem, bh, n)} :: n in mem && n != NIL ==> BlackAt(mem, bh, n)) &&
    forall n {:trigger RedAt(mem, n, e)} :: n in mem && n != NIL ==> RedAt(mem, n, e)
  }

  function Paint(mem: Mem, n: Ref, c: Color): (mem': Mem)
    requires n in mem
    ensures mem'.Keys == mem.Keys
  {
    mem[n := mem[n].(color := c)]
  }

  lemma Painted(mem: Mem, n: Ref, c: Color)
    requires n in mem && n != NIL
    ensures Recolored(mem, Paint(mem, n, c), {n})
  {}

  // The loop ends: the root is made black.
  lemma InsertStop(mem: Mem, root: Ref, sub: Below, bh: Heights, e: Ref)
    requires InsertState(mem, root, sub, bh, e)
    requires Weight(mem, mem[e].parent) == 1 || mem[e].parent == root
    ensures root in Nodes(mem) && Shape(Paint(mem, root, Black), root, sub) && Balanced(Paint(mem, root, Black), bh)
  {
    var mem' := Paint(mem, root, Black);
    assert LinksAt(mem, root, e) && LinksAt(mem, root, root);
    Painted(mem, root, Black);
    RecoloredShape(mem, mem', root, sub, {root});
    forall n | n in mem' && n != NIL ensures BlackAt(mem', bh, n) && RedAt(mem', n, NIL) {
      assert LinksAt(mem, root, n) && BlackAt(mem, bh, n) && RedAt(mem, n, e);
    }
  }

  // A red uncle: both become black, the grandparent red.
  lemma InsertUncle(mem: Mem, root: Ref, sub: Below, bh: Heights, e: Ref, p: Ref, u: Ref, g: Ref)
    requires InsertState(mem, root, sub, bh, e) && p == mem[e].parent && p in Nodes(mem) && mem[p].color == Red
    requires g == mem[p].parent && g in Nodes(mem) && (u == mem[g].left || u == mem[g].right) && u != p &&
             u in Nodes(mem) && mem[u].color == Red
    ensures var mem' := Paint(Paint(Paint(mem, p, Black), u, Black), g, Red);
            InsertState(mem', root, sub, bh[g := bh[g] + 1], g) && sub[e] < sub[g]
  {
    hide Shape, LinksAt, RedAt, BlackAt;
    UncleFacts(mem, root, sub, bh, e, p, u, g);
    UncleShape(mem, root, sub, p, u, g);
    UncleColors(mem, root, sub, bh, e, p, u, g);
  }

  ghost predicate UncleAround(mem: Mem, e: Ref, p: Ref, u: Ref, g: Ref) {
    e in Nodes(mem) && p in Nodes(mem) && u in Nodes(mem) && g in Nodes(mem) && p != u && p != g && u != g && e != p &&
    e != g &&
    mem[p].color == Red && mem[u].color == Red && mem[g].color == Black && mem[e].parent == p && mem[p].parent == g &&
    (u == mem[g].left || u == mem[g].right)
  }

  lemma UncleFacts(mem: Mem, root: Ref, sub: Below, bh: Heights, e: Ref, p: Ref, u: Ref, g: Ref)
    requires InsertState(mem, root, sub, bh, e) && p == mem[e].parent && p in Nodes(mem) && mem[p].color == Red
    requires g == mem[p].parent && g in Nodes(mem) && (u == mem[g].left || u == mem[g].right) && u != p &&
             u in Nodes(mem) && mem[u].color == Red
    ensures UncleAround(mem, e, p, u, g) && sub[e] < sub[g]
  {
    ShapeLinks(mem, root, sub, e);
    ShapeLinks(mem, root, sub, p);
    ShapeLinks(mem, root, sub, g);
    ParentAbove(mem, root, sub, e);
    ParentAbove(mem, root, sub, p);
    KidBelow(mem, root, sub, g, false);
    KidBelow(mem, root, sub, g, true);
    KidBelow(mem, root, sub, e, true);
    assert RedAt(mem, g, e);
    hide Shape;
  }

  lemma UncleShape(mem: Mem, root: Ref, sub: Below, p: Ref, u: Ref, g: Ref)
    requires Shape(mem, root, sub) && p in Nodes(mem) && u in Nodes(mem) && g in Nodes(mem)
    ensures Shape(Paint(Paint(Paint(mem, p, Black), u, Black), g, Red), root, sub)
  {
    RecoloredShape(mem, Paint(Paint(Paint(mem, p, Black), u, Black), g, Red), root, sub, {p, u, g});
  }

  lemma UncleColors(mem: Mem, root: Ref, sub: Below, bh: Heights, e: Ref, p: Ref, u: Ref, g: Ref)
    requires InsertState(mem, root, sub, bh, e) && UncleAround(mem, e, p, u, g)
    ensures var mem' := Paint(Paint(Paint(mem, p, Black), u, Black), g, Red); var bh' := bh[g := bh[g] + 1];
            (forall n {:trigger BlackAt(mem', bh', n)} :: n in mem' && n != NIL ==> BlackAt(mem', bh', n)) &&
            (forall n {:trigger RedAt(mem', n, g)} :: n in mem' && n != NIL ==> RedAt(mem', n, g)) &&
            RedAt(mem', g, NIL)
  {
    var mem', bh' := Paint(Paint(Paint(mem, p, Black), u, Black), g, Red), bh[g := bh[g] + 1];
    assert NIL in mem;
    hide Shape;
    ShapeLinks(mem, root, sub, p);
    ShapeLinks(mem, root, sub, u);
    ShapeLinks(mem, root, sub, g);
    forall n | n in mem' && n != NIL ensures BlackAt(mem', bh', n) && RedAt(mem', n, g) {
      ShapeLinks(mem, root, sub, n);
      assert BlackAt(mem, bh, n) && RedAt(mem, n, e) && BlackAt(mem, bh, g);
      UncleNode(mem, mem', root, bh, e, p, u, g, n);
    }
    UncleKids(mem, root, p, u, g);
  }

  lemma UncleKids(mem: Mem, root: Ref, p: Ref, u: Ref, g: Ref)
    requires LinksAt(mem, root, p) && LinksAt(mem, root, g) && g == mem[p].parent && p != u && g != NIL &&
             (u == mem[g].left || u == mem[g].right)
    ensures (mem[g].left == p && mem[g].right == u) || (mem[g].left == u && mem[g].right == p)
  {}

  lemma UncleNode(mem: Mem, mem': Mem, root: Ref, bh: Heights, e: Ref, p: Ref, u: Ref, g: Ref, n: Ref)
    requires p in mem && u in mem && g in mem && p != NIL && u != NIL && g != NIL && p != u && p != g && u != g &&
             NIL in mem
    requires mem' == Paint(Paint(Paint(mem, p, Black), u, Black), g, Red) && n in mem && n != NIL
    requires LinksAt(mem, root, p) && LinksAt(mem, root, g) && LinksAt(mem, root, u) && LinksAt(mem, root, n)
    requires g == mem[p].parent && (u == mem[g].left || u == mem[g].right)
    requires mem[p].color == Red && mem[u].color == Red && mem[g].color == Black
    requires BlackAt(mem, bh, n) && RedAt(mem, n, e) && BlackAt(mem, bh, g)
    requires n != p ==> mem[n].left != e && mem[n].right != e
    ensures BlackAt(mem', bh[g := bh[g] + 1], n) && RedAt(mem', n, g)
  {
    hide Paint;
    UncleKids(mem, root, p, u, g);
    UnclePainted(mem, mem', p, u, g, n);
    UncleWeights(mem, mem', p, u, g, mem[n].left);
    UncleWeights(mem, mem', p, u, g, mem[n].right);
    if n != g { assert mem[n].left != p && mem[n].right != p && mem[n].left != u && mem[n].right != u; }
  }

  lemma UnclePainted(mem: Mem, mem': Mem, p: Ref, u: Ref, g: Ref, n: Ref)
    requires p in mem && u in mem && g in mem && p != u && p != g && u != g && n in mem
    requires mem' == Paint(Paint(Paint(mem, p, Black), u, Black), g, Red)
    ensures n in mem' && mem'[n].left == mem[n].left && mem'[n].right == mem[n].right
    ensures mem'[n].color == if n == g then Red else if n == p || n == u then Black else mem[n].color
  {}

  lemma UncleWeights(mem: Mem, mem': Mem, p: Ref, u: Ref, g: Ref, n: Ref)
    requires p in mem && u in mem && g in mem && p != u && p != g && u != g && n in mem
    requires mem' == Paint(Paint(Paint(mem, p, Black), u, Black), g, Red)
    ensures n in mem' && Weight(mem', n) == if n == g then 0 else if n == p || n == u then 1 else Weight(mem, n)
  {}

  lemma ShapeLinks(mem: Mem, root: Ref, sub: Below, n: Ref)
    requires Shape(mem, root, sub) && n in mem && n != NIL
    ensures LinksAt(mem, root, n)
  {}

  lemma TurnOf(mem: Mem, mem1: Mem, root: Ref, sub: Below, x: Ref, dir: bool)
    requires Shape(mem, root, sub) && x in Nodes(mem) && Kid(mem[x], !dir) in Nodes(mem)
    requires Recolored(mem, mem1, {x, Kid(mem[x], !dir), Kid(mem[Kid(mem[x], !dir)], !dir)})
    ensures var y := Kid(mem[x], !dir);
            Turn(mem, mem1, Rotated(mem1, x, dir), root, x, y, Kid(mem[x], dir), Kid(mem[y], dir), Kid(mem[y], !dir), mem[x].parent, dir)
    ensures sub.Keys == mem.Keys && Shape(mem1, root, sub) && Shape(Rotated(mem1, x, dir), if mem[x].parent == NIL then Kid(mem[x], !dir) else root, RotatedBelow(mem1, sub, x, dir))
  {
    var y := Kid(mem[x], !dir);
    var a, b, d, p := Kid(mem[x], dir), Kid(mem[y], dir), Kid(mem[y], !dir), mem[x].parent;
    RecoloredShape(mem, mem1, root, sub, {x, y, d});
    IsAround(mem, root, sub, x, dir);
    assert Around(mem1, x, y, a, b, d, p, dir);
    RotatedIs(mem1, x, y, a, b, d, p, dir);
    RotateShape(mem1, root, sub, x, dir);
  }

  // An inner child is turned outward; its parent takes its role.
  lemma InsertInner(mem: Mem, root: Ref, sub: Below, bh: Heights, e: Ref, p: Ref, dir: bool)
    requires InsertState(mem, root, sub, bh, e) && p == mem[e].parent && p in Nodes(mem) && mem[p].color == Red
    requires Kid(mem[p], !dir) == e
    ensures var mem' := Rotated(mem, p, dir); var root' := if mem[p].parent == NIL then e else root;
            Kid(mem[p], dir) in sub && Kid(mem[e], dir) in sub &&
            InsertState(mem', root', RotatedBelow(mem, sub, p, dir), bh, p) && mem'[p].parent == e &&
            Kid(mem'[e], dir) == p &&
            mem'[e].parent == mem[p].parent && mem'[e].color == Red &&
            forall n :: n in mem ==> mem'[n].color == mem[n].color
    ensures var g, mem' := mem[p].parent, Rotated(mem, p, dir);
            g != NIL ==> g in mem && g in mem' && mem'[g] == SetKid(mem[g], mem[g].left != p, e)
  {
    var a, b, d, g := Kid(mem[p], dir), Kid(mem[e], dir), Kid(mem[e], !dir), mem[p].parent;
    assert LinksAt(mem, root, p) && LinksAt(mem, root, e);
    TurnOf(mem, mem, root, sub, p, dir);
    var mem' := Rotated(mem, p, dir);
    TurnColors(mem, mem, mem', root, p, e, a, b, d, g, dir);
    TurnKids(mem, mem, mem', root, p, e, a, b, d, g, dir);
    InnerFacts(mem, mem', root, p, e, a, b, d, g, dir);
    assert BlackAt(mem, bh, p) && BlackAt(mem, bh, e) && RedAt(mem, e, NIL) && RedAt(mem, p, e);
    BlackSides(mem, bh, p, dir);
    BlackSides(mem, bh, e, dir);
    RedSides(mem, e, NIL, dir);
    RedSides(mem, p, e, dir);
    hide Turn, Shape;
    TurnBlack(mem, mem, mem', root, p, e, a, b, d, g, dir, bh, bh, false, NIL);
    InnerRed(mem, mem', root, p, e, a, b, d, g, dir, sub);
  }

  lemma InnerFacts(mem: Mem, mem': Mem, root: Ref, p: Ref, e: Ref, a: Ref, b: Ref, d: Ref, g: Ref, dir: bool)
    requires Turn(mem, mem, mem', root, p, e, a, b, d, g, dir)
    ensures mem'[p].parent == e && mem'[e].parent == g && (g != NIL ==> mem'[g] == SetKid(mem[g], mem[g].left != p, e))
    ensures a != e && (d != NIL ==> d != p)
  {
    hide Links;
  }

  lemma InnerRed(mem: Mem, mem': Mem, root: Ref, p: Ref, e: Ref, a: Ref, b: Ref, d: Ref, g: Ref, dir: bool, sub: Below)
    requires Turn(mem, mem, mem', root, p, e, a, b, d, g, dir) && Shape(mem, root, sub)
    requires forall n {:trigger RedAt(mem, n, e)} :: n in mem && n != NIL ==> RedAt(mem, n, e)
    requires mem[p].color == Red && mem[e].color == Red && (a == e || Weight(mem, a) == 1) && Weight(mem, b) == 1 &&
             Weight(mem, d) == 1
    ensures RedAt(mem', p, NIL) && forall n {:trigger RedAt(mem', n, p)} :: n in mem' && n != NIL ==> RedAt(mem', n, p)
  {
    TurnColors(mem, mem, mem', root, p, e, a, b, d, g, dir);
    TurnKids(mem, mem, mem', root, p, e, a, b, d, g, dir);
    InnerFacts(mem, mem', root, p, e, a, b, d, g, dir);
    RedSides(mem', p, NIL, dir);
    hide Shape;
    ShapeLinks(mem, root, sub, p);
    ShapeLinks(mem, root, sub, e);
    if g != NIL {
      ShapeLinks(mem, root, sub, g);
      assert RedAt(mem, g, e);
    }
    forall n | n in mem && n != NIL && n != p && n != e && n != g && n != d ensures RedAt(mem, n, p) {
      ShapeLinks(mem, root, sub, n);
      assert RedAt(mem, n, e);
    }
    if d != NIL {
      ShapeLinks(mem, root, sub, d);
      assert RedAt(mem, d, e);
    }
    hide Turn;
    TurnRed(mem, mem, mem', root, p, e, a, b, d, g, dir, e, p);
  }

  // An outer child: its parent rises over the grandparent, and they exchange colours.
  lemma InsertOuter(mem: Mem, root: Ref, sub: Below, bh: Heights, e: Ref, p: Ref, g: Ref, dir: bool)
    requires InsertState(mem, root, sub, bh, e) && p == mem[e].parent && p in Nodes(mem) && mem[p].color == Red
    requires g == mem[p].parent && g in Nodes(mem) && Kid(mem[g], !dir) == p && Kid(mem[p], !dir) == e &&
             Weight(mem, Kid(mem[g], dir)) == 1
    ensures var mem1 := Paint(Paint(mem, g, Red), p, Black); var root' := if mem[g].parent == NIL then p else root;
            Kid(mem1[g], dir) in sub && Kid(mem1[p], dir) in sub &&
            InsertState(Rotated(mem1, g, dir), root', RotatedBelow(mem1, sub, g, dir), bh, e) &&
            Rotated(mem1, g, dir)[e].parent == p && Rotated(mem1, g, dir)[p].color == Black
  {
    var mem1 := Paint(Paint(mem, g, Red), p, Black);
    var mem' := Rotated(mem1, g, dir);
    var a, b, gp := Kid(mem[g], dir), Kid(mem[p], dir), mem[g].parent;
    OuterFacts(mem, root, sub, bh, e, p, g, dir);
    TurnOf(mem, mem1, root, sub, g, dir);
    TurnColors(mem, mem1, mem', root, g, p, a, b, e, gp, dir);
    OuterParent(mem, mem1, mem', root, g, p, a, b, e, gp, dir);
    hide Turn, Shape, Recolored, Rotated, RotatedBelow;
    TurnBlack(mem, mem1, mem', root, g, p, a, b, e, gp, dir, bh, bh, false, NIL);
    if gp != NIL { GrandColors(mem, root, sub, e, g, gp); }
    TurnRed(mem, mem1, mem', root, g, p, a, b, e, gp, dir, e, e);
    OuterE(mem, mem1, mem', root, g, p, a, b, e, gp, dir);
  }

  lemma OuterFacts(mem: Mem, root: Ref, sub: Below, bh: Heights, e: Ref, p: Ref, g: Ref, dir: bool)
    requires InsertState(mem, root, sub, bh, e) && p == mem[e].parent && p in Nodes(mem) && mem[p].color == Red
    requires g == mem[p].parent && g in Nodes(mem) && Kid(mem[g], !dir) == p && Kid(mem[p], !dir) == e
    ensures var mem1 := Paint(Paint(mem, g, Red), p, Black); var a, b := Kid(mem[g], dir), Kid(mem[p], dir);
            Recolored(mem, mem1, {g, p, e}) && e != p && g != p && e != g && mem[g].color == Black && b != e &&
            Weight(mem, b) == 1 && Weight(mem1, b) == 1 &&
            a in bh && b in bh && bh[g] == bh[b] + 1 && bh[g] == bh[a] + Weight(mem, a) && bh[p] == bh[g] &&
            bh[p] == bh[e]
  {
    ShapeLinks(mem, root, sub, e);
    ShapeLinks(mem, root, sub, p);
    ShapeLinks(mem, root, sub, g);
    ParentAbove(mem, root, sub, e);
    ParentAbove(mem, root, sub, p);
    KidBelow(mem, root, sub, p, dir);
    assert RedAt(mem, g, e) && RedAt(mem, p, e) && BlackAt(mem, bh, g) && BlackAt(mem, bh, p);
    BlackSides(mem, bh, g, dir);
    BlackSides(mem, bh, p, dir);
    RedSides(mem, p, e, dir);
    RedSides(mem, g, e, dir);
    hide Shape;
  }

  lemma OuterParent(mem: Mem, mem1: Mem, mem': Mem, root: Ref, g: Ref, p: Ref, a: Ref, b: Ref, e: Ref, gp: Ref,
                    dir: bool)
    requires Turn(mem, mem1, mem', root, g, p, a, b, e, gp, dir) && e != NIL && mem[e].parent == p
    ensures mem'[e].parent == p
  {
    hide Links;
  }

  lemma GrandColors(mem: Mem, root: Ref, sub: Below, e: Ref, g: Ref, gp: Ref)
    requires Shape(mem, root, sub) && g in Nodes(mem) && gp == mem[g].parent && gp != NIL && e in Nodes(mem) &&
             mem[e].parent != gp
    requires forall n {:trigger RedAt(mem, n, e)} :: n in mem && n != NIL ==> RedAt(mem, n, e)
    ensures gp in mem && (mem[gp].color == Red ==> var q := Kid(mem[gp], mem[gp].left == g); Weight(mem, q) == 1)
  {
    ShapeLinks(mem, root, sub, g);
    ShapeLinks(mem, root, sub, gp);
    assert RedAt(mem, gp, e);
    RedSides(mem, gp, e, mem[gp].left == g);
    hide Shape;
  }

  lemma OuterE(mem: Mem, mem1: Mem, mem': Mem, root: Ref, g: Ref, p: Ref, a: Ref, b: Ref, e: Ref, gp: Ref, dir: bool)
    requires Turn(mem, mem1, mem', root, g, p, a, b, e, gp, dir) && RedAt(mem, e, NIL) && e != NIL && mem1[e] == mem[e]
    ensures RedAt(mem', e, NIL) && mem'[e].color == mem[e].color
  {
    TurnIs(mem, mem1, mem', root, g, p, a, b, e, gp, dir);
    var bh := map q | q in mem :: 0 as nat;
    TurnFar(mem, mem1, mem', root, g, p, a, b, e, gp, dir, bh, bh, e, NIL);
    TurnColors(mem, mem1, mem', root, g, p, a, b, e, gp, dir);
  }

  // ----- after a removal -----

  // All is well, except that the paths through y, the child of z on this side, are one black node
  // short, and that y may be red under a red parent or over red children.
  ghost predicate RemoveState(mem: Mem, root: Ref, sub: Below, bh: Heights, y: Ref, z: Ref, side: bool) {
    Shape(mem, root, sub) && HeightsOK(mem, bh) && y in mem && z in mem && root != NIL && (z == NIL <==> y == root) &&
    (z != NIL ==> Kid(mem[z], side) == y && bh[z] == bh[y] + Weight(mem, y) + 1 &&
                  Kid(mem[z], !side) in bh && bh[z] == bh[Kid(mem[z], !side)] + Weight(mem, Kid(mem[z], !side))) &&
    (forall n {:trigger BlackAt(mem, bh, n)} :: n in mem && n != NIL && n != z ==> BlackAt(mem, bh, n)) &&
    forall n {:trigger RedAt(mem, n, y)} :: n in mem && n != NIL && n != y ==> RedAt(mem, n, y)
  }

  // The loop ends at the root or at a red node, which becomes black.
  lemma RemoveStop(mem: Mem, root: Ref, sub: Below, bh: Heights, y: Ref, z: Ref, side: bool)
    requires RemoveState(mem, root, sub, bh, y, z, side) && (y == root || Weight(mem, y) == 0)
    ensures y in Nodes(mem) && Shape(Paint(mem, y, Black), root, sub) && Balanced(Paint(mem, y, Black), bh)
  {
    hide Shape;
    StopFacts(mem, root, sub, bh, y, z, side);
    var mem' := Paint(mem, y, Black);
    forall n | n in mem' && n != NIL ensures BlackAt(mem', bh, n) && RedAt(mem', n, NIL) {
      ShapeLinks(mem, root, sub, n);
      assert n != z ==> BlackAt(mem, bh, n);
      assert n != y ==> RedAt(mem, n, y);
      StopNode(mem, root, bh, y, z, side, n);
    }
  }

  lemma StopFacts(mem: Mem, root: Ref, sub: Below, bh: Heights, y: Ref, z: Ref, side: bool)
    requires RemoveState(mem, root, sub, bh, y, z, side) && (y == root || Weight(mem, y) == 0)
    ensures y in Nodes(mem) && Shape(Paint(mem, y, Black), root, sub) && LinksAt(mem, root, y) && NIL in mem &&
            mem[NIL] == NIL_NODE
    ensures z != NIL ==> mem[z].left in mem && mem[z].right in mem && mem[y].parent == z
  {
    assert mem[NIL] == NIL_NODE;
    Painted(mem, y, Black);
    RecoloredShape(mem, Paint(mem, y, Black), root, sub, {y});
    ShapeLinks(mem, root, sub, y);
    if z != NIL { ShapeLinks(mem, root, sub, z); }
  }

  lemma StopNode(mem: Mem, root: Ref, bh: Heights, y: Ref, z: Ref, side: bool, n: Ref)
    requires y in mem && y != NIL && NIL in mem && LinksAt(mem, root, y) && n in mem && n != NIL &&
             LinksAt(mem, root, n)
    requires (y == root || Weight(mem, y) == 0) && z in mem && (z == NIL <==> y == root) && bh.Keys == mem.Keys
    requires z != NIL ==> Kid(mem[z], side) == y && mem[y].parent == z && bh[z] == bh[y] + Weight(mem, y) + 1 &&
                          Kid(mem[z], !side) in bh && bh[z] == bh[Kid(mem[z], !side)] + Weight(mem, Kid(mem[z], !side))
    requires (n != z ==> BlackAt(mem, bh, n)) && (n != y ==> RedAt(mem, n, y))
    ensures BlackAt(Paint(mem, y, Black), bh, n) && RedAt(Paint(mem, y, Black), n, NIL)
  {
    if n == z { BlackSides(Paint(mem, y, Black), bh, z, side); }
  }

  // The sibling exists, and is on the other side.
  lemma SiblingThere(mem: Mem, root: Ref, sub: Below, bh: Heights, y: Ref, z: Ref, side: bool)
    requires RemoveState(mem, root, sub, bh, y, z, side) && z != NIL && Weight(mem, y) == 1
    ensures var s := Kid(mem[z], !side); s in Nodes(mem) && s != y && mem[s].parent == z && (y == mem[z].left <==> !side)
    ensures var s := Kid(mem[z], !side); s != z && BlackAt(mem, bh, s) && RedAt(mem, s, NIL) && RedAt(mem, z, NIL)
  {
    var s := Kid(mem[z], !side);
    ShapeLinks(mem, root, sub, z);
    assert mem[NIL] == NIL_NODE;
    ShapeLinks(mem, root, sub, s);
    KidBelow(mem, root, sub, z, !side);
    KidBelow(mem, root, sub, z, side);
    assert BlackAt(mem, bh, s) && RedAt(mem, s, y) && RedAt(mem, z, y);
    hide Shape;
  }

  // The colours around the sibling s: its children on y's side (in) and on the other side (out).
  ghost predicate Siblings(mem: Mem, bh: Heights, y: Ref, z: Ref, side: bool, s: Ref) {
    y in mem && z in mem && s in mem && y in bh && z in bh && s in bh && z != NIL && s != NIL && s != y && s != z &&
    y != z &&
    Kid(mem[z], side) == y && Kid(mem[z], !side) == s && mem[s].parent == z && Weight(mem, y) == 1 &&
    Kid(mem[s], side) in bh && Kid(mem[s], !side) in bh &&
    bh[z] == bh[y] + 2 && bh[z] == bh[s] + Weight(mem, s) &&
    bh[s] == bh[Kid(mem[s], side)] + Weight(mem, Kid(mem[s], side)) &&
    bh[s] == bh[Kid(mem[s], !side)] + Weight(mem, Kid(mem[s], !side)) &&
    (mem[s].color == Red ==> Weight(mem, Kid(mem[s], side)) == 1 && Weight(mem, Kid(mem[s], !side)) == 1 && mem[z].color == Black)
  }

  lemma IsSiblings(mem: Mem, root: Ref, sub: Below, bh: Heights, y: Ref, z: Ref, side: bool)
    requires RemoveState(mem, root, sub, bh, y, z, side) && z != NIL && Weight(mem, y) == 1
    ensures var s := Kid(mem[z], !side); Siblings(mem, bh, y, z, side, s) && s in Nodes(mem) && (y == mem[z].left <==> !side)
  {
    var s := Kid(mem[z], !side);
    SiblingThere(mem, root, sub, bh, y, z, side);
    ShapeLinks(mem, root, sub, s);
    KidBelow(mem, root, sub, z, side);
    BlackSides(mem, bh, s, side);
    RedSides(mem, s, NIL, side);
    RedSides(mem, z, NIL, side);
    hide Shape;
  }

  lemma ParentColors(mem: Mem, root: Ref, sub: Below, bh: Heights, y: Ref, z: Ref, side: bool)
    requires RemoveState(mem, root, sub, bh, y, z, side) && z != NIL && mem[z].parent != NIL
    ensures var p := mem[z].parent;
            p in mem && p != z && p != y &&
            (mem[p].color == Red ==> mem[z].color == Black && Weight(mem, Kid(mem[p], mem[p].left == z)) == 1)
  {
    var p := mem[z].parent;
    ShapeLinks(mem, root, sub, z);
    ShapeLinks(mem, root, sub, p);
    ParentAbove(mem, root, sub, z);
    KidBelow(mem, root, sub, z, side);
    if y != NIL {
      ShapeLinks(mem, root, sub, y);
      ParentAbove(mem, root, sub, y);
    }
    assert RedAt(mem, p, y);
    RedSides(mem, p, y, mem[p].left == z);
    hide Shape;
  }

  // A red sibling rises over z; then the sibling is black and z red.
  lemma RemoveRedSibling(mem: Mem, root: Ref, sub: Below, bh: Heights, y: Ref, z: Ref, side: bool, s: Ref)
    requires RemoveState(mem, root, sub, bh, y, z, side) && Siblings(mem, bh, y, z, side, s) && mem[s].color == Red
    ensures var mem1 := Paint(Paint(mem, s, Black), z, Red); var root' := if mem[z].parent == NIL then s else root;
            Kid(mem1[z], side) in sub && Kid(mem1[s], side) in sub &&
            RemoveState(Rotated(mem1, z, side), root', RotatedBelow(mem1, sub, z, side), bh, y, z, side) &&
            Rotated(mem1, z, side)[z].color == Red && Kid(Rotated(mem1, z, side)[z], !side) == Kid(mem[s], side) &&
            Weight(Rotated(mem1, z, side), Kid(mem[s], side)) == 1
  {
    hide Shape, Rotated, RotatedBelow, Turn, Around, Recolored, Siblings, BlackAt, RedAt;
    RedSiblingFacts(mem, bh, y, z, side, s);
    var mem1 := Paint(Paint(mem, s, Black), z, Red);
    var mem' := Rotated(mem1, z, side);
    var b, d, p := Kid(mem[s], side), Kid(mem[s], !side), mem[z].parent;
    TurnOf(mem, mem1, root, sub, z, side);
    TurnIs(mem, mem1, mem', root, z, s, y, b, d, p, side);
    TurnColors(mem, mem1, mem', root, z, s, y, b, d, p, side);
    TurnKids(mem, mem1, mem', root, z, s, y, b, d, p, side);
    AroundApart(mem, z, s, y, b, d, p, side);
    if p != NIL { ParentColors(mem, root, sub, bh, y, z, side); }
    TurnBlack(mem, mem1, mem', root, z, s, y, b, d, p, side, bh, bh, true, NIL);
    RemoveRed(mem, mem1, mem', root, z, s, y, b, d, p, side, y);
  }

  lemma AroundApart(mem: Mem, x: Ref, y: Ref, a: Ref, b: Ref, d: Ref, p: Ref, dir: bool)
    requires Around(mem, x, y, a, b, d, p, dir)
    ensures a in mem && b in mem && d in mem && p in mem && x != y && x != NIL && y != NIL
    ensures b != x && b != y && d != x && d != y && a != x && a != y && (b != NIL ==> b != a) &&
            (d != NIL ==> d != a) && (d != NIL ==> d != b)
  {}

  lemma RedSiblingFacts(mem: Mem, bh: Heights, y: Ref, z: Ref, side: bool, s: Ref)
    requires Siblings(mem, bh, y, z, side, s) && mem[s].color == Red && bh.Keys == mem.Keys
    ensures var mem1 := Paint(Paint(mem, s, Black), z, Red); var b, d := Kid(mem[s], side), Kid(mem[s], !side);
            y in mem && z in mem && s in mem && z != NIL && s != NIL && s != y && s != z && y != z && b in mem &&
            d in mem &&
            Kid(mem[z], side) == y && Kid(mem[z], !side) == s && Weight(mem, y) == 1 &&
            Recolored(mem, mem1, {z, s, d}) &&
            (b != z && b != s ==> Weight(mem1, b) == 1) &&
            (d != z && d != s ==> Weight(mem1, d) == 1 && mem1[d].color == mem[d].color) &&
            Weight(mem, b) == 1 && Weight(mem, d) == 1 && mem[z].color == Black && Weight(mem1, z) == 0 &&
            Weight(mem1, s) == 1 &&
            mem1[z].color == Red && mem1[s].color == Black && Weight(mem, z) == 1 && Weight(mem, s) == 0 &&
            bh[z] == bh[b] + 1 && bh[s] == bh[z] && bh[s] == bh[d] + 1 && bh[z] == bh[y] + 2
  {}

  // The colour rule when the sibling turns with z, in a removal.
  lemma RemoveRed(mem: Mem, mem1: Mem, mem': Mem, root: Ref, x: Ref, s: Ref, a: Ref, b: Ref, d: Ref, p: Ref, dir: bool,
                  y: Ref)
    requires Turn(mem, mem1, mem', root, x, s, a, b, d, p, dir)
    requires forall n {:trigger RedAt(mem, n, y)} :: n in mem && n != NIL && n != y ==> RedAt(mem, n, y)
    requires mem1[d].color == Black || mem1[d].color == mem[d].color
    requires mem1[x].color == Red ==> (a == y || Weight(mem, a) == 1) && (b == y || Weight(mem1, b) == 1)
    requires mem1[s].color == Red ==> (x == y || mem1[x].color == Black) && (d == y || Weight(mem1, d) == 1)
    requires p != NIL && mem[p].color == Red ==> mem1[s].color == Black && Weight(mem, Kid(mem[p], mem[p].left == x)) == 1
    requires Weight(mem, y) == 1
    ensures forall n {:trigger RedAt(mem', n, y)} :: n in mem' && n != NIL ==> RedAt(mem', n, y)
  {
    forall n | n in mem && n != NIL ensures RedAt(mem, n, y) {
      if n == y { assert mem[n].color == Black; }
    }
    hide Turn;
    TurnRed(mem, mem1, mem', root, x, s, a, b, d, p, dir, y, y);
  }

  // Both nephews black: the sibling becomes red, and z is the short one.
  lemma RemoveRecolor(mem: Mem, root: Ref, sub: Below, bh: Heights, y: Ref, z: Ref, side: bool, s: Ref)
    requires RemoveState(mem, root, sub, bh, y, z, side) && Siblings(mem, bh, y, z, side, s) && mem[s].color == Black
    requires Weight(mem, mem[s].left) == 1 && Weight(mem, mem[s].right) == 1
    ensures var mem', bh' := Paint(mem, s, Red), bh[z := (bh[z] - 1) as nat];
            mem[z].parent in mem && RemoveState(mem', root, sub, bh', z, mem[z].parent, mem[mem[z].parent].left != z) &&
            sub[y] < sub[z]
  {
    hide Shape, BlackAt, RedAt, Siblings, Paint;
    RecolorFacts(mem, root, sub, bh, y, z, side, s);
    var mem', bh' := Paint(mem, s, Red), bh[z := (bh[z] - 1) as nat];
    var p := mem[z].parent;
    forall n | n in mem' && n != NIL && n != p ensures BlackAt(mem', bh', n) {
      ShapeLinks(mem, root, sub, n);
      assert n != z ==> BlackAt(mem, bh, n);
      RecolorBlack(mem, root, bh, y, z, side, s, n);
    }
    forall n | n in mem' && n != NIL && n != z ensures RedAt(mem', n, z) {
      ShapeLinks(mem, root, sub, n);
      assert n != y ==> RedAt(mem, n, y);
      RecolorRed(mem, root, y, z, side, s, n);
    }
    RecolorTop(mem, root, sub, bh, y, z, side, s);
  }

  lemma RecolorTop(mem: Mem, root: Ref, sub: Below, bh: Heights, y: Ref, z: Ref, side: bool, s: Ref)
    requires RemoveState(mem, root, sub, bh, y, z, side) && Siblings(mem, bh, y, z, side, s) && mem[s].color == Black
    ensures var mem', bh', p := Paint(mem, s, Red), bh[z := (bh[z] - 1) as nat], mem[z].parent;
            HeightsOK(mem', bh') && z in mem' && mem'[z] == mem[z]
    ensures var mem', bh', p := Paint(mem, s, Red), bh[z := (bh[z] - 1) as nat], mem[z].parent;
            p != NIL ==> p in mem' && mem'[p] == mem[p] && Kid(mem'[p], mem[p].left != z) == z && bh'[p] == bh'[z] + Weight(mem', z) + 1
    ensures var mem', bh', p := Paint(mem, s, Red), bh[z := (bh[z] - 1) as nat], mem[z].parent;
            p != NIL ==> Kid(mem'[p], mem[p].left == z) in bh' && bh'[p] == bh'[Kid(mem'[p], mem[p].left == z)] + Weight(mem', Kid(mem'[p], mem[p].left == z))
  {
    hide Shape;
    RecolorFacts(mem, root, sub, bh, y, z, side, s);
    var p := mem[z].parent;
    if p != NIL {
      assert BlackAt(mem, bh, p);
      BlackSides(mem, bh, p, mem[p].left != z);
      RecolorParent(mem, root, sub, s, z, p);
    }
  }

  lemma RecolorFacts(mem: Mem, root: Ref, sub: Below, bh: Heights, y: Ref, z: Ref, side: bool, s: Ref)
    requires RemoveState(mem, root, sub, bh, y, z, side) && Siblings(mem, bh, y, z, side, s)
    ensures Shape(Paint(mem, s, Red), root, sub) && LinksAt(mem, root, z) && LinksAt(mem, root, s) && NIL in mem &&
            mem[NIL] == NIL_NODE
    ensures mem[z].parent in mem && mem[z].parent != z && mem[z].parent != s && sub[y] < sub[z]
    ensures y != NIL ==> LinksAt(mem, root, y)
    ensures s in mem && z in mem && y in mem && s != NIL && z != NIL && mem[s].parent == z && Weight(mem, y) == 1 &&
            bh[z] > 0
    ensures (mem[z].parent == NIL <==> z == root) &&
            (mem[z].parent != NIL ==> Kid(mem[mem[z].parent], mem[mem[z].parent].left != z) == z)
  {
    Painted(mem, s, Red);
    RecoloredShape(mem, Paint(mem, s, Red), root, sub, {s});
    ShapeLinks(mem, root, sub, z);
    ShapeLinks(mem, root, sub, s);
    KidBelow(mem, root, sub, z, side);
    KidBelow(mem, root, sub, z, !side);
    if mem[z].parent != NIL { ParentAbove(mem, root, sub, z); }
    if y != NIL { ShapeLinks(mem, root, sub, y); }
    hide Shape;
  }

  lemma RecolorBlack(mem: Mem, root: Ref, bh: Heights, y: Ref, z: Ref, side: bool, s: Ref, n: Ref)
    requires Siblings(mem, bh, y, z, side, s) && mem[s].color == Black && bh.Keys == mem.Keys && NIL in mem && bh[z] > 0
    requires LinksAt(mem, root, z) && LinksAt(mem, root, s) && n != NIL && LinksAt(mem, root, n) && n != mem[z].parent
    requires n != z ==> BlackAt(mem, bh, n)
    ensures BlackAt(Paint(mem, s, Red), bh[z := (bh[z] - 1) as nat], n)
  {
    if n == z {
      RecolorZ(mem, bh, y, z, side, s);
    } else {
      RecolorOther(mem, root, bh, z, s, n, (bh[z] - 1) as nat);
    }
  }

  lemma RecolorOther(mem: Mem, root: Ref, bh: Heights, z: Ref, s: Ref, n: Ref, h: nat)
    requires z in mem && s in mem && mem[s].parent == z && bh.Keys == mem.Keys && z != NIL && s != NIL
    requires LinksAt(mem, root, n) && n != mem[z].parent && n != z && BlackAt(mem, bh, n)
    ensures BlackAt(Paint(mem, s, Red), bh[z := h], n)
  {}

  lemma RecolorZ(mem: Mem, bh: Heights, y: Ref, z: Ref, side: bool, s: Ref)
    requires Siblings(mem, bh, y, z, side, s) && mem[s].color == Black && bh.Keys == mem.Keys && bh[z] > 0
    ensures BlackAt(Paint(mem, s, Red), bh[z := (bh[z] - 1) as nat], z)
  {
    BlackSides(Paint(mem, s, Red), bh[z := (bh[z] - 1) as nat], z, side);
  }

  lemma RecolorRed(mem: Mem, root: Ref, y: Ref, z: Ref, side: bool, s: Ref, n: Ref)
    requires y in mem && z in mem && s in mem && NIL in mem && z != NIL && s != NIL && n in mem && n != NIL && n != z &&
             LinksAt(mem, root, n)
    requires LinksAt(mem, root, s) && mem[s].parent == z && Weight(mem, y) == 1 && (n != y ==> RedAt(mem, n, y)) &&
             mem[s].color == Black
    requires Weight(mem, mem[s].left) == 1 && Weight(mem, mem[s].right) == 1
    ensures RedAt(Paint(mem, s, Red), n, z)
  {
    assert mem[n].left != s && mem[n].right != s;
  }

  lemma RecolorParent(mem: Mem, root: Ref, sub: Below, s: Ref, z: Ref, p: Ref)
    requires Shape(mem, root, sub) && z in Nodes(mem) && p == mem[z].parent && p != NIL && s in Nodes(mem) &&
             mem[s].parent == z
    ensures p in mem && Kid(mem[p], mem[p].left == z) != s && Kid(mem[p], mem[p].left == z) != z &&
            Kid(mem[p], mem[p].left != z) == z
  {
    ShapeLinks(mem, root, sub, z);
    ShapeLinks(mem, root, sub, p);
    ShapeLinks(mem, root, sub, s);
    ParentAbove(mem, root, sub, z);
    hide Shape;
  }

  // Only the inner nephew is red: it rises over the sibling, and the outer nephew is red afterwards.
  lemma RemoveInnerNephew(mem: Mem, root: Ref, sub: Below, bh: Heights, y: Ref, z: Ref, side: bool, s: Ref, b: Ref)
    requires RemoveState(mem, root, sub, bh, y, z, side) && Siblings(mem, bh, y, z, side, s) && mem[s].color == Black
    requires b == Kid(mem[s], side) && b in mem && mem[b].color == Red && Weight(mem, Kid(mem[s], !side)) == 1
    ensures var mem1 := Paint(Paint(mem, b, Black), s, Red);
            Kid(mem1[s], !side) in sub && Kid(mem1[b], !side) in sub && s in sub && Kid(mem1[s], side) == b &&
            RemoveState(Rotated(mem1, s, !side), root, RotatedBelow(mem1, sub, s, !side), bh, y, z, side) &&
            Kid(Rotated(mem1, s, !side)[z], !side) == b && Rotated(mem1, s, !side)[b].color == Black &&
            Kid(Rotated(mem1, s, !side)[b], !side) == s && Rotated(mem1, s, !side)[s].color == Red
  {
    hide Shape, Rotated, RotatedBelow, Turn, Around, Recolored, Siblings, BlackAt, RedAt;
    InnerNephewFacts(mem, root, sub, bh, y, z, side, s, b);
    var mem1 := Paint(Paint(mem, b, Black), s, Red);
    var mem' := Rotated(mem1, s, !side);
    var out, b', d := Kid(mem[s], !side), Kid(mem[b], !side), Kid(mem[b], side);
    TurnOf(mem, mem1, root, sub, s, !side);
    TurnIs(mem, mem1, mem', root, s, b, out, b', d, z, !side);
    TurnColors(mem, mem1, mem', root, s, b, out, b', d, z, !side);
    TurnKids(mem, mem1, mem', root, s, b, out, b', d, z, !side);
    TurnParent(mem, mem1, mem', root, s, b, out, b', d, z, !side);
    AroundApart(mem, s, b, out, b', d, z, !side);
    TurnBlack(mem, mem1, mem', root, s, b, out, b', d, z, !side, bh, bh, false, z);
    RemoveRed(mem, mem1, mem', root, s, b, out, b', d, z, !side, y);
  }

  lemma InnerNephewFacts(mem: Mem, root: Ref, sub: Below, bh: Heights, y: Ref, z: Ref, side: bool, s: Ref, b: Ref)
    requires RemoveState(mem, root, sub, bh, y, z, side) && Siblings(mem, bh, y, z, side, s) && mem[s].color == Black
    requires b == Kid(mem[s], side) && b in mem && mem[b].color == Red && Weight(mem, Kid(mem[s], !side)) == 1
    ensures var mem1 := Paint(Paint(mem, b, Black), s, Red); var out, b', d := Kid(mem[s], !side), Kid(mem[b], !side), Kid(mem[b], side);
            s in Nodes(mem) && b in Nodes(mem) && y in mem && z in mem && z != NIL && mem[s].parent == z && s != y &&
            s != z && y != z && b != y && b != z &&
            out in mem && b' in mem && d in mem && mem1.Keys == mem.Keys && Recolored(mem, mem1, {s, b, d}) &&
            Weight(mem, y) == 1 &&
            Kid(mem[z], side) == y && Kid(mem[z], !side) == s && Kid(mem[z], mem[z].left == s) == y &&
            (mem[z].left != s) == !side &&
            Weight(mem, out) == 1 && Weight(mem, b') == 1 && Weight(mem, d) == 1 &&
            Weight(mem, s) == 1 && bh[s] == bh[b] && bh[s] == bh[out] + 1 && bh[b] == bh[b'] + 1 && bh[b] == bh[d] + 1 && bh[z] == bh[s] + 1 && bh[z] == bh[y] + 2
  {
    ShapeLinks(mem, root, sub, z);
    ShapeLinks(mem, root, sub, s);
    assert mem[NIL] == NIL_NODE;
    ShapeLinks(mem, root, sub, b);
    KidBelow(mem, root, sub, z, side);
    KidBelow(mem, root, sub, z, !side);
    KidBelow(mem, root, sub, s, side);
    assert b != y by { if y != NIL { ShapeLinks(mem, root, sub, y); } }
    assert BlackAt(mem, bh, b) && RedAt(mem, b, y);
    hide Shape;
    BlackSides(mem, bh, b, side);
    RedSides(mem, b, y, side);
  }

  // The outer nephew is red: the sibling rises over z with z's colour, and all is well.
  lemma RemoveOuterNephew(mem: Mem, root: Ref, sub: Below, bh: Heights, y: Ref, z: Ref, side: bool, s: Ref, d: Ref)
    requires RemoveState(mem, root, sub, bh, y, z, side) && Siblings(mem, bh, y, z, side, s) && mem[s].color == Black
    requires d == Kid(mem[s], !side) && d in mem && mem[d].color == Red
    ensures d != z && d != s && d != NIL
    ensures var mem1 := Paint(Paint(Paint(mem, s, mem[z].color), z, Black), d, Black); var root' := if mem[z].parent == NIL then s else root;
            Kid(mem1[z], side) in sub && Kid(mem1[s], side) in sub && z in sub && Kid(mem1[z], !side) == s &&
            RemoveState(Rotated(mem1, z, side), root', RotatedBelow(mem1, sub, z, side), bh[z := (bh[z] - 1) as nat][s := bh[z]], root', NIL, side)
  {
    hide Shape, Rotated, RotatedBelow, Turn, Around, Recolored, Siblings, BlackAt, RedAt, Paint, Weight;
    OuterNephewFacts(mem, root, sub, bh, y, z, side, s, d);
    OuterNumbers(mem, bh, y, z, side, s, d);
    var mem1 := Paint(Paint(Paint(mem, s, mem[z].color), z, Black), d, Black);
    var mem' := Rotated(mem1, z, side);
    var bh' := bh[z := (bh[z] - 1) as nat][s := bh[z]];
    var b, p := Kid(mem[s], side), mem[z].parent;
    TurnOf(mem, mem1, root, sub, z, side);
    TurnIs(mem, mem1, mem', root, z, s, y, b, d, p, side);
    TurnColors(mem, mem1, mem', root, z, s, y, b, d, p, side);
    TurnKids(mem, mem1, mem', root, z, s, y, b, d, p, side);
    AroundApart(mem, z, s, y, b, d, p, side);
    if p != NIL { ParentColors(mem, root, sub, bh, y, z, side); }
    TurnBlack(mem, mem1, mem', root, z, s, y, b, d, p, side, bh, bh', false, NIL);
    RemoveRed(mem, mem1, mem', root, z, s, y, b, d, p, side, y);
    RootThere(mem, root, sub);
    SameWeight(mem1, mem', y);
    AllWell(mem', if p == NIL then s else root, RotatedBelow(mem1, sub, z, side), bh', y, side);
  }

  // The new heights and colours around z.
  lemma OuterNumbers(mem: Mem, bh: Heights, y: Ref, z: Ref, side: bool, s: Ref, d: Ref)
    requires y in mem && z in mem && s in mem && d in mem && s != y && s != z && y != z && d != z && d != s && d != y &&
             bh.Keys == mem.Keys
    requires var b := Kid(mem[s], side); b in mem && b != z && b != s && b != d && bh[s] == bh[b] + Weight(mem, b)
    requires bh[z] == bh[s] + 1 && bh[z] == bh[y] + 2 && bh[s] == bh[d] && Weight(mem, y) == 1
    ensures var mem1, bh' := Paint(Paint(Paint(mem, s, mem[z].color), z, Black), d, Black), bh[z := (bh[z] - 1) as nat][s := bh[z]];
            var b := Kid(mem[s], side);
            mem1.Keys == mem.Keys && bh'.Keys == bh.Keys && HeightsFrom(bh, bh', z, s) && mem1[d].color == Black &&
            mem1[z].color == Black &&
            mem1[s].color == mem[z].color && mem1[y] == mem[y] && Weight(mem1, y) == 1 &&
            Weight(mem1, s) == Weight(mem, z) &&
            bh'[z] == bh[b] + Weight(mem1, b) && bh'[z] == bh[y] + Weight(mem, y) &&
            bh'[s] == bh'[z] + Weight(mem1, z) &&
            bh'[s] == bh[d] + Weight(mem1, d) && bh'[s] == bh[z] &&
            (forall n :: n in bh && n != z && n != s ==> bh'[n] == bh[n]) &&
            Kid(mem1[z], side) == Kid(mem[z], side) && Kid(mem1[s], side) == b && Kid(mem1[z], !side) == Kid(mem[z], !side)
  {}

  lemma SameWeight(mem: Mem, mem1: Mem, y: Ref)
    requires y in mem && y in mem1 && mem[y].color == mem1[y].color
    ensures Weight(mem1, y) == Weight(mem, y)
  {}

  // Nothing is left to repair: the state the loop ends with.
  lemma AllWell(mem: Mem, root: Ref, sub: Below, bh: Heights, y: Ref, side: bool)
    requires Shape(mem, root, sub) && HeightsOK(mem, bh) && root != NIL && root in mem && NIL in mem &&
             Weight(mem, y) == 1
    requires forall n {:trigger BlackAt(mem, bh, n)} :: n in mem && n != NIL ==> BlackAt(mem, bh, n)
    requires forall n {:trigger RedAt(mem, n, y)} :: n in mem && n != NIL ==> RedAt(mem, n, y)
    ensures RemoveState(mem, root, sub, bh, root, NIL, side)
  {
    hide Shape;
    forall n | n in mem && n != NIL && n != root ensures RedAt(mem, n, root) {
      assert RedAt(mem, n, y);
      Stricter(mem, n, y, root);
    }
  }

  lemma RootThere(mem: Mem, root: Ref, sub: Below)
    requires Shape(mem, root, sub)
    ensures root in mem && NIL in mem
  {}

  lemma Stricter(mem: Mem, n: Ref, e: Ref, e': Ref)
    requires RedAt(mem, n, e) && Weight(mem, e) == 1
    ensures RedAt(mem, n, e')
  {}

  lemma OuterNephewFacts(mem: Mem, root: Ref, sub: Below, bh: Heights, y: Ref, z: Ref, side: bool, s: Ref, d: Ref)
    requires RemoveState(mem, root, sub, bh, y, z, side) && Siblings(mem, bh, y, z, side, s) && mem[s].color == Black
    requires d == Kid(mem[s], !side) && d in mem && mem[d].color == Red
    ensures var b := Kid(mem[s], side);
            s in Nodes(mem) && z in Nodes(mem) && y in mem && mem[s].parent == z && s != y && s != z && y != z &&
            d != z && d != s && d != y && d != NIL &&
            b in mem && b != z && b != s && d != b && Weight(mem, y) == 1 &&
            Recolored(mem, Paint(Paint(Paint(mem, s, mem[z].color), z, Black), d, Black), {z, s, d}) &&
            Kid(mem[z], side) == y && Kid(mem[z], !side) == s && Weight(mem, s) == 1 && Weight(mem, d) == 0 &&
            z in bh && y in bh && s in bh && b in bh && d in bh &&
            bh[z] == bh[s] + 1 && bh[z] == bh[y] + 2 && bh[s] == bh[b] + Weight(mem, b) && bh[s] == bh[d]
  {
    OuterNephewApart(mem, root, sub, y, z, side, s, d);
    hide Shape;
    OuterRecolored(mem, z, s, d);
  }

  lemma OuterRecolored(mem: Mem, z: Ref, s: Ref, d: Ref)
    requires z in mem && s in mem && d in mem && z != NIL && s != NIL && d != NIL && z != s && z != d && s != d
    ensures Recolored(mem, Paint(Paint(Paint(mem, s, mem[z].color), z, Black), d, Black), {z, s, d})
  {}

  lemma OuterNephewApart(mem: Mem, root: Ref, sub: Below, y: Ref, z: Ref, side: bool, s: Ref, d: Ref)
    requires Shape(mem, root, sub) && z in Nodes(mem) && s in Nodes(mem) && y in mem && Kid(mem[z], side) == y &&
             Kid(mem[z], !side) == s
    requires d == Kid(mem[s], !side) && d in mem && mem[d].color == Red
    ensures var b := Kid(mem[s], side); b in mem && b != z && b != s && d != b && d != z && d != s && d != y && d != NIL && NIL in mem
  {
    assert mem[NIL] == NIL_NODE;
    ShapeLinks(mem, root, sub, z);
    ShapeLinks(mem, root, sub, s);
    ShapeLinks(mem, root, sub, d);
    if y != NIL { ShapeLinks(mem, root, sub, y); }
    if Kid(mem[s], side) != NIL { ShapeLinks(mem, root, sub, Kid(mem[s], side)); }
    KidBelow(mem, root, sub, z, !side);
    KidBelow(mem, root, sub, s, side);
    KidBelow(mem, root, sub, s, !side);
    hide Shape;
  }
}
