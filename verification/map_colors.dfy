// Colours and black heights of a red-black map, and what the repairs of map.c do to them.
module MapColors {
  import opened MapTree

  // The number of black nodes on every path down from a node, the sentinel included, itself not.
  type Heights = map<Ref, nat>

  function Weight(mem: Mem, n: Ref): nat { if n in mem && mem[n].color == Red then 0 else 1 }

  ghost predicate BlackAt(mem: Mem, bh: Heights, n: Ref) {
    n in mem && n in bh && mem[n].left in bh && mem[n].right in bh &&
    bh[n] == bh[mem[n].left] + Weight(mem, mem[n].left) && bh[n] == bh[mem[n].right] + Weight(mem, mem[n].right)
  }

  // A red node has black children, except for e.
  ghost predicate RedAt(mem: Mem, n: Ref, e: Ref) {
    n in mem && (mem[n].color == Red ==>
      (mem[n].left == e || Weight(mem, mem[n].left) == 1) && (mem[n].right == e || Weight(mem, mem[n].right) == 1))
  }

  ghost predicate Balanced(mem: Mem, bh: Heights) {
    bh.Keys == mem.Keys && NIL in bh && bh[NIL] == 0 &&
    (forall n {:trigger BlackAt(mem, bh, n)} :: n in mem && n != NIL ==> BlackAt(mem, bh, n)) &&
    forall n {:trigger RedAt(mem, n, NIL)} :: n in mem && n != NIL ==> RedAt(mem, n, NIL)
  }

  // Only colours differ, and only those of these nodes.
  ghost predicate Recolored(mem: Mem, mem1: Mem, where: set<Ref>) {
    mem1.Keys == mem.Keys && (NIL in mem ==> mem1[NIL] == mem[NIL]) &&
    forall n :: n in mem ==> mem1[n] == mem[n].(color := mem1[n].color) && (n !in where ==> mem1[n] == mem[n])
  }

  lemma RecoloredShape(mem: Mem, mem1: Mem, root: Ref, sub: Below, where: set<Ref>)
    requires Shape(mem, root, sub) && Recolored(mem, mem1, where)
    ensures Shape(mem1, root, sub)
  {
    assert Nodes(mem1) == Nodes(mem);
    forall n | n in mem1 && n != NIL ensures LinksAt(mem1, root, n) && BelowAt(mem1, sub, n) && OrderAt(mem1, sub, n) {
      assert LinksAt(mem, root, n) && BelowAt(mem, sub, n) && OrderAt(mem, sub, n);
    }
  }

  // ----- a rotation with recolouring -----

  // mem: before; mem1: after recolouring; mem': after the rotation.
  ghost predicate Turn(mem: Mem, mem1: Mem, mem': Mem, root: Ref, x: Ref, y: Ref, a: Ref, b: Ref, d: Ref, p: Ref,
                       dir: bool) {
    Links(mem, root) && Around(mem, x, y, a, b, d, p, dir) && Recolored(mem, mem1, {x, y, d}) && RotatedRecs(mem1, mem', x, y, b, p, dir)
  }

  ghost predicate HeightsFrom(bh: Heights, bh': Heights, x: Ref, y: Ref) {
    x in bh && y in bh && bh'.Keys == bh.Keys && forall n :: n in bh && n != x && n != y ==> bh'[n] == bh[n]
  }

  lemma TurnColors(mem: Mem, mem1: Mem, mem': Mem, root: Ref, x: Ref, y: Ref, a: Ref, b: Ref, d: Ref, p: Ref, dir: bool)
    requires Turn(mem, mem1, mem', root, x, y, a, b, d, p, dir)
    ensures mem'.Keys == mem.Keys && forall n :: n in mem ==> mem'[n].color == mem1[n].color
  {
    hide Links;
  }

  lemma TurnKids(mem: Mem, mem1: Mem, mem': Mem, root: Ref, x: Ref, y: Ref, a: Ref, b: Ref, d: Ref, p: Ref, dir: bool)
    requires Turn(mem, mem1, mem', root, x, y, a, b, d, p, dir)
    ensures Kid(mem'[x], dir) == a && Kid(mem'[x], !dir) == b && Kid(mem'[y], dir) == x && Kid(mem'[y], !dir) == d
    ensures forall n :: n in mem && n != x && n != y && n != p ==> mem'[n].left == mem[n].left && mem'[n].right == mem[n].right
  {
    hide Links;
  }

  // Nobody else has x, y or d as a child.
  lemma TurnApart(mem: Mem, mem1: Mem, mem': Mem, root: Ref, x: Ref, y: Ref, a: Ref, b: Ref, d: Ref, p: Ref, dir: bool,
                  n: Ref)
    requires Links(mem, root) && Around(mem, x, y, a, b, d, p, dir) && n in mem && n != NIL && n != x && n != y &&
             n != p
    ensures mem[n].left in mem && mem[n].right in mem
    ensures mem[n].left != x && mem[n].right != x && mem[n].left != y && mem[n].right != y
    ensures d != NIL ==> mem[n].left != d && mem[n].right != d
  {
    assert LinksAt(mem, root, x) && LinksAt(mem, root, y) && LinksAt(mem, root, n);
    hide Links;
  }

  // Nodes that are not part of the turn keep their black height and colour rule.
  lemma TurnFar(mem: Mem, mem1: Mem, mem': Mem, root: Ref, x: Ref, y: Ref, a: Ref, b: Ref, d: Ref, p: Ref, dir: bool,
                bh: Heights, bh': Heights, n: Ref, e: Ref)
    requires Turn(mem, mem1, mem', root, x, y, a, b, d, p, dir) && HeightsFrom(bh, bh', x, y)
    requires n in mem && n != NIL && n != x && n != y && n != p
    requires n == d ==> mem1[d].color == Black || mem1[d].color == mem[d].color
    ensures BlackAt(mem, bh, n) ==> BlackAt(mem', bh', n)
    ensures RedAt(mem, n, e) ==> RedAt(mem', n, e)
  {
    TurnColors(mem, mem1, mem', root, x, y, a, b, d, p, dir);
    TurnKids(mem, mem1, mem', root, x, y, a, b, d, p, dir);
    TurnApart(mem, mem1, mem', root, x, y, a, b, d, p, dir, n);
    SameColor(mem, mem1, {x, y, d}, mem[n].left);
    SameColor(mem, mem1, {x, y, d}, mem[n].right);
    SameColor(mem, mem1, {x, y, d}, n);
    hide Turn;
  }

  lemma SameColor(mem: Mem, mem1: Mem, where: set<Ref>, n: Ref)
    requires Recolored(mem, mem1, where) && n in mem && NIL in mem
    ensures n !in where || n == NIL ==> mem1[n].color == mem[n].color
  {}

  // The parent of the turn gets another child in the place of x.
  lemma TurnParent(mem: Mem, mem1: Mem, mem': Mem, root: Ref, x: Ref, y: Ref, a: Ref, b: Ref, d: Ref, p: Ref, dir: bool)
    requires Turn(mem, mem1, mem', root, x, y, a, b, d, p, dir) && p != NIL
    ensures var side := mem[p].left != x; var q := Kid(mem[p], !side);
            Kid(mem[p], side) == x && Kid(mem'[p], side) == y && Kid(mem'[p], !side) == q && q in mem &&
            q != x && q != y && (q == NIL || q != d) && mem1[p] == mem[p]
  {
    assert LinksAt(mem, root, x) && LinksAt(mem, root, y) && LinksAt(mem, root, p);
    hide Links;
  }

  lemma TurnIs(mem: Mem, mem1: Mem, mem': Mem, root: Ref, x: Ref, y: Ref, a: Ref, b: Ref, d: Ref, p: Ref, dir: bool)
    requires Turn(mem, mem1, mem', root, x, y, a, b, d, p, dir)
    ensures Around(mem, x, y, a, b, d, p, dir) && Recolored(mem, mem1, {x, y, d}) && NIL in mem && mem1.Keys == mem.Keys
    ensures p != NIL ==> mem1[p] == mem[p]
  {}

  // Both sides of a node.
  lemma BlackSides(mem: Mem, bh: Heights, n: Ref, dir: bool)
    requires n in mem && n in bh && Kid(mem[n], dir) in bh && Kid(mem[n], !dir) in bh
    ensures BlackAt(mem, bh, n) <==>
            bh[n] == bh[Kid(mem[n], dir)] + Weight(mem, Kid(mem[n], dir)) &&
            bh[n] == bh[Kid(mem[n], !dir)] + Weight(mem, Kid(mem[n], !dir))
  {}

  lemma RedSides(mem: Mem, n: Ref, e: Ref, dir: bool)
    requires n in mem
    ensures RedAt(mem, n, e) <==>
            (mem[n].color == Red ==>
               (Kid(mem[n], dir) == e || Weight(mem, Kid(mem[n], dir)) == 1) &&
               (Kid(mem[n], !dir) == e || Weight(mem, Kid(mem[n], !dir)) == 1))
  {}

  // The black heights after a turn, if those of x, y and p come out right.  short: x may be one
  // short on the side of a, and ex is left out.
  lemma TurnBlack(mem: Mem, mem1: Mem, mem': Mem, root: Ref, x: Ref, y: Ref, a: Ref, b: Ref, d: Ref, p: Ref, dir: bool,
                  bh: Heights, bh': Heights, short: bool, ex: Ref)
    requires Turn(mem, mem1, mem', root, x, y, a, b, d, p, dir) && HeightsFrom(bh, bh', x, y) && bh.Keys == mem.Keys
    requires forall n {:trigger BlackAt(mem, bh, n)} :: n in mem && n != NIL && n != x && n != ex ==> BlackAt(mem, bh, n)
    requires mem1[d].color == Black || mem1[d].color == mem[d].color
    requires bh'[x] == bh[b] + Weight(mem1, b) && (!short ==> bh'[x] == bh[a] + Weight(mem, a))
    requires bh'[y] == bh'[x] + Weight(mem1, x) && bh'[y] == bh[d] + Weight(mem1, d)
    requires bh'[y] + Weight(mem1, y) == bh[x] + Weight(mem, x)
    ensures forall n {:trigger BlackAt(mem', bh', n)} :: n in mem' && n != NIL && n != ex && (short ==> n != x) ==> BlackAt(mem', bh', n)
  {
    hide Turn, Around, Recolored;
    TurnColors(mem, mem1, mem', root, x, y, a, b, d, p, dir);
    forall n | n in mem' && n != NIL && n != ex && (short ==> n != x) ensures BlackAt(mem', bh', n) {
      if n == x || n == y {
        TurnBlackXY(mem, mem1, mem', root, x, y, a, b, d, p, dir, bh, bh', n);
      } else if n == p {
        TurnBlackP(mem, mem1, mem', root, x, y, a, b, d, p, dir, bh, bh');
      } else {
        TurnFar(mem, mem1, mem', root, x, y, a, b, d, p, dir, bh, bh', n, NIL);
      }
    }
  }

  lemma TurnBlackXY(mem: Mem, mem1: Mem, mem': Mem, root: Ref, x: Ref, y: Ref, a: Ref, b: Ref, d: Ref, p: Ref,
                    dir: bool,
                    bh: Heights, bh': Heights, n: Ref)
    requires Turn(mem, mem1, mem', root, x, y, a, b, d, p, dir) && HeightsFrom(bh, bh', x, y) && bh.Keys == mem.Keys &&
             (n == x || n == y)
    requires n == x ==> bh'[x] == bh[b] + Weight(mem1, b) && bh'[x] == bh[a] + Weight(mem, a)
    requires n == y ==> bh'[y] == bh'[x] + Weight(mem1, x) && bh'[y] == bh[d] + Weight(mem1, d)
    ensures BlackAt(mem', bh', n)
  {
    TurnColors(mem, mem1, mem', root, x, y, a, b, d, p, dir);
    TurnKids(mem, mem1, mem', root, x, y, a, b, d, p, dir);
    TurnIs(mem, mem1, mem', root, x, y, a, b, d, p, dir);
    SameColor(mem, mem1, {x, y, d}, a);
    hide Turn, Recolored;
    BlackSides(mem', bh', n, dir);
  }

  lemma TurnBlackP(mem: Mem, mem1: Mem, mem': Mem, root: Ref, x: Ref, y: Ref, a: Ref, b: Ref, d: Ref, p: Ref, dir: bool,
                   bh: Heights, bh': Heights)
    requires Turn(mem, mem1, mem', root, x, y, a, b, d, p, dir) && HeightsFrom(bh, bh', x, y) && bh.Keys == mem.Keys &&
             p != NIL
    requires BlackAt(mem, bh, p) && bh'[y] + Weight(mem1, y) == bh[x] + Weight(mem, x)
    ensures BlackAt(mem', bh', p)
  {
    TurnColors(mem, mem1, mem', root, x, y, a, b, d, p, dir);
    TurnIs(mem, mem1, mem', root, x, y, a, b, d, p, dir);
    TurnParent(mem, mem1, mem', root, x, y, a, b, d, p, dir);
    var side := mem[p].left != x;
    SameColor(mem, mem1, {x, y, d}, Kid(mem[p], !side));
    hide Turn, Recolored;
    BlackSides(mem, bh, p, side);
    BlackSides(mem', bh', p, side);
  }

  // The colour rule after a turn.
  lemma TurnRed(mem: Mem, mem1: Mem, mem': Mem, root: Ref, x: Ref, y: Ref, a: Ref, b: Ref, d: Ref, p: Ref, dir: bool,
                e: Ref, e': Ref)
    requires Turn(mem, mem1, mem', root, x, y, a, b, d, p, dir)
    requires forall n {:trigger RedAt(mem, n, e')} :: n in mem && n != NIL && n != x && n != y && n != p && n != d ==> RedAt(mem, n, e')
    requires d != NIL ==> RedAt(mem, d, e') && (mem1[d].color == Black || mem1[d].color == mem[d].color)
    requires mem1[x].color == Red ==> (a == e' || Weight(mem, a) == 1) && (b == e' || Weight(mem1, b) == 1)
    requires mem1[y].color == Red ==> (x == e' || mem1[x].color == Black) && (d == e' || Weight(mem1, d) == 1)
    requires p != NIL && mem[p].color == Red ==>
               (y == e' || mem1[y].color == Black) &&
               var q := Kid(mem[p], mem[p].left == x); q == e' || Weight(mem, q) == 1
    ensures forall n {:trigger RedAt(mem', n, e')} :: n in mem' && n != NIL ==> RedAt(mem', n, e')
  {
    hide Turn;
    TurnColors(mem, mem1, mem', root, x, y, a, b, d, p, dir);
    TurnKids(mem, mem1, mem', root, x, y, a, b, d, p, dir);
    TurnIs(mem, mem1, mem', root, x, y, a, b, d, p, dir);
    forall n | n in mem' && n != NIL ensures RedAt(mem', n, e') {
      if n == x || n == y {
        SameColor(mem, mem1, {x, y, d}, a);
        RedSides(mem', n, e', dir);
      } else if n == p {
        TurnParent(mem, mem1, mem', root, x, y, a, b, d, p, dir);
        var side := mem[p].left != x;
        SameColor(mem, mem1, {x, y, d}, Kid(mem[p], !side));
        RedSides(mem', p, e', side);
      } else {
        var bh := map q | q in mem :: 0 as nat;
        TurnFar(mem, mem1, mem', root, x, y, a, b, d, p, dir, bh, bh, n, e');
      }
    }
  }
}
