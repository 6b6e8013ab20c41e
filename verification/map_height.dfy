// How high a red-black map can grow (src/structs/map.c).
module MapHeight {
  import opened Common
  import opened MapTree
  import opened MapColors

  function Max(a: nat, b: nat): nat { if a < b then b else a }

  // The number of nodes on the longest path down from n.
  ghost function Height(mem: Mem, root: Ref, sub: Below, n: Ref): nat
    requires Sets(mem, root, sub) && n in mem
    decreases sub[n]
  {
    if n == NIL then 0
    else
      KidBelow(mem, root, sub, n, false);
      KidBelow(mem, root, sub, n, true);
      1 + Max(Height(mem, root, sub, mem[n].left), Height(mem, root, sub, mem[n].right))
  }

  // Red nodes at most double the length of a path.
  lemma {:induction false} HeightByBlack(mem: Mem, root: Ref, sub: Below, bh: Heights, n: Ref)
    requires Sets(mem, root, sub) && Balanced(mem, bh) && n in mem
    ensures Height(mem, root, sub, n) <= 2 * bh[n] && (mem[n].color == Red ==> Height(mem, root, sub, n) < 2 * bh[n])
    decreases sub[n]
  {
    if n != NIL {
      KidBelow(mem, root, sub, n, false);
      KidBelow(mem, root, sub, n, true);
      HeightByBlack(mem, root, sub, bh, mem[n].left);
      HeightByBlack(mem, root, sub, bh, mem[n].right);
      assert BlackAt(mem, bh, n) && RedAt(mem, n, NIL);
      assert Weight(mem, NIL) == 1;
    }
  }

  lemma {:induction false} PowGrows(a: nat, b: nat)
    requires a <= b
    ensures 1 <= Pow2(a) <= Pow2(b)
  {
    if a > 0 { PowGrows(a - 1, b - 1); } else if b > 0 { PowGrows(0, b - 1); }
  }

  lemma {:induction false} PowAdds(a: nat, b: nat)
    ensures Pow2(a + b) == Pow2(a) * Pow2(b)
  {
    if a > 0 {
      PowAdds(a - 1, b);
      assert Pow2(a + b) == 2 * Pow2(a - 1 + b);
    }
  }

  // A tree of black height h has at least 2^h - 1 nodes.
  lemma {:induction false} NodesByBlack(mem: Mem, root: Ref, sub: Below, bh: Heights, n: Ref)
    requires Sets(mem, root, sub) && Balanced(mem, bh) && n in mem
    ensures Pow2(bh[n]) <= |sub[n]| + 1
    decreases sub[n]
  {
    if n != NIL {
      var l, r := mem[n].left, mem[n].right;
      KidBelow(mem, root, sub, n, false);
      KidBelow(mem, root, sub, n, true);
      NodesByBlack(mem, root, sub, bh, l);
      NodesByBlack(mem, root, sub, bh, r);
      assert BlackAt(mem, bh, n) && BelowAt(mem, sub, n);
      assert |sub[n]| == 1 + |sub[l]| + |sub[r]|;
      hide Sets, Balanced;
      if bh[n] > 0 {
        PowGrows(bh[n] - 1, bh[l]);
        PowGrows(bh[n] - 1, bh[r]);
      }
    }
  }

  // The height is at most twice the logarithm of the number of nodes, plus one.
  lemma HeightIsLogarithmic(mem: Mem, root: Ref, sub: Below, bh: Heights)
    requires Shape(mem, root, sub) && Balanced(mem, bh)
    ensures Pow2(Height(mem, root, sub, root)) <= (|Nodes(mem)| + 1) * (|Nodes(mem)| + 1)
  {
    var h, b, s := Height(mem, root, sub, root), bh[root], |Nodes(mem)| + 1;
    HeightByBlack(mem, root, sub, bh, root);
    NodesByBlack(mem, root, sub, bh, root);
    PowGrows(h, 2 * b);
    PowAdds(b, b);
    Squares(Pow2(b), s);
  }

  lemma Squares(a: nat, b: nat)
    requires a <= b
    ensures a * a <= b * b
  {
    assert a * a <= a * b <= b * b;
  }

  lemma HigherThanKids(mem: Mem, root: Ref, sub: Below, n: Ref, right: bool)
    requires Sets(mem, root, sub) && n in Nodes(mem)
    ensures var c := Kid(mem[n], right); c in mem && Height(mem, root, sub, c) < Height(mem, root, sub, n)
  {
    KidBelow(mem, root, sub, n, right);
  }
}
