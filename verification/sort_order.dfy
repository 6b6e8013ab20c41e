// Orders, permutations of a stretch, and sortedness, for table.sort (src/lua/ltablib.c).
module SortOrder {
  import opened Common

  // An order function as the manual asks for it: a strict weak order (Lua 5.2 Reference Manual,
  // section 6.5).
  ghost predicate StrictWeak<T(!new)>(lt: (T, T) -> bool) {
    (forall x :: !lt(x, x)) &&
    (forall x, y, z :: !lt(y, x) && !lt(z, y) ==> !lt(z, x)) &&
    forall x, y :: lt(x, y) ==> !lt(y, x)
  }

  // Only the elements from l to u differ, and they are the same ones in another order.
  ghost predicate Perm<T>(s: seq<T>, t: seq<T>, l: nat, u: int) {
    |t| == |s| && (forall k :: 0 <= k < |s| && !(l <= k <= u) ==> t[k] == s[k]) && multiset(t) == multiset(s)
  }

  ghost predicate Sorted<T(!new)>(s: seq<T>, lt: (T, T) -> bool, l: nat, u: int) {
    forall x, y :: l <= x < y <= u && y < |s| ==> !lt(s[y], s[x])
  }

  lemma PermRefl<T>(s: seq<T>, l: nat, u: int)
    ensures Perm(s, s, l, u)
  {}

  lemma PermTrans<T>(r: seq<T>, s: seq<T>, t: seq<T>, l: nat, u: int)
    requires Perm(r, s, l, u) && Perm(s, t, l, u)
    ensures Perm(r, t, l, u)
  {}

  lemma PermWiden<T>(s: seq<T>, t: seq<T>, l: nat, u: int, l': nat, u': int)
    requires Perm(s, t, l, u) && l' <= l && u <= u'
    ensures Perm(s, t, l', u')
  {}

  lemma SwapPerm<T>(s: seq<T>, i: nat, j: nat, l: nat, u: int)
    requires l <= i <= u && l <= j <= u && u < |s|
    ensures Perm(s, s[i := s[j]][j := s[i]], l, u)
  {}

  lemma Pieces<T>(s: seq<T>, l: nat, u: int)
    requires l <= u + 1 <= |s|
    ensures multiset(s) == multiset(s[..l]) + multiset(s[l..u + 1]) + multiset(s[u + 1..])
  {
    assert s == s[..l] + s[l..u + 1] + s[u + 1..];
  }

  lemma Cancel<T>(a: multiset<T>, x: multiset<T>, y: multiset<T>, b: multiset<T>)
    requires a + x + b == a + y + b
    ensures x == y
  {
    forall e ensures x[e] == y[e] { assert (a + x + b)[e] == (a + y + b)[e]; }
  }

  // Every element of the stretch was in the stretch before.
  lemma PermFrom<T>(s: seq<T>, t: seq<T>, l: nat, u: int, y: nat) returns (z: nat)
    requires Perm(s, t, l, u) && l <= y <= u < |s|
    ensures l <= z <= u && s[z] == t[y]
  {
    var s1, t1 := s[l..u + 1], t[l..u + 1];
    Pieces(s, l, u);
    Pieces(t, l, u);
    assert s[..l] == t[..l] && s[u + 1..] == t[u + 1..];
    Cancel(multiset(s[..l]), multiset(s1), multiset(t1), multiset(s[u + 1..]));
    assert t1[y - l] in multiset(s1);
    var k :| 0 <= k < |s1| && s1[k] == t1[y - l];
    z := l + k;
  }

  // A bound on a stretch holds for what becomes of it.
  lemma PermBelow<T(!new)>(s: seq<T>, t: seq<T>, lt: (T, T) -> bool, l: nat, u: int, p: T)
    requires Perm(s, t, l, u) && u < |s| && forall x :: l <= x <= u ==> !lt(p, s[x])
    ensures forall x :: l <= x <= u ==> !lt(p, t[x])
  {
    forall x | l <= x <= u ensures !lt(p, t[x]) { var z := PermFrom(s, t, l, u, x); }
  }

  lemma PermAbove<T(!new)>(s: seq<T>, t: seq<T>, lt: (T, T) -> bool, l: nat, u: int, p: T)
    requires Perm(s, t, l, u) && u < |s| && forall x :: l <= x <= u ==> !lt(s[x], p)
    ensures forall x :: l <= x <= u ==> !lt(t[x], p)
  {
    forall x | l <= x <= u ensures !lt(t[x], p) { var z := PermFrom(s, t, l, u, x); }
  }

  // All pairs are in order of which not both are in the stretch from l to u.
  ghost predicate SortedAround<T(!new)>(s: seq<T>, lt: (T, T) -> bool, l0: nat, u0: int, l: nat, u: int) {
    u0 < |s| && forall x, y :: l0 <= x < y <= u0 && (x < l || y > u) ==> !lt(s[y], s[x])
  }

  lemma AroundStays<T(!new)>(s: seq<T>, t: seq<T>, lt: (T, T) -> bool, l0: nat, u0: int, l: nat, u: int)
    requires SortedAround(s, lt, l0, u0, l, u) && Perm(s, t, l, u) && l0 <= l && u <= u0
    ensures SortedAround(t, lt, l0, u0, l, u)
  {
    forall x, y | l0 <= x < y <= u0 && (x < l || y > u) ensures !lt(t[y], t[x]) {
      if l <= x <= u {
        var z := PermFrom(s, t, l, u, x);
      } else if l <= y <= u {
        var z := PermFrom(s, t, l, u, y);
      }
    }
  }

  lemma AroundSorted<T(!new)>(s: seq<T>, lt: (T, T) -> bool, l0: nat, u0: int, l: nat, u: int)
    requires SortedAround(s, lt, l0, u0, l, u) && Sorted(s, lt, l, u)
    ensures Sorted(s, lt, l0, u0)
  {}

  // The pivot at i splits the stretch; one part has been sorted, the other is left.
  lemma PartSorted<T(!new)>(s: seq<T>, lt: (T, T) -> bool, l0: nat, u0: int, l: nat, u: int, i: nat, left: bool)
    requires StrictWeak(lt) && SortedAround(s, lt, l0, u0, l, u) && l0 <= l <= i <= u <= u0
    requires (forall x :: l <= x < i ==> !lt(s[i], s[x])) && forall y :: i < y <= u ==> !lt(s[y], s[i])
    requires if left then Sorted(s, lt, l, i - 1) else Sorted(s, lt, i + 1, u)
    ensures if left then SortedAround(s, lt, l0, u0, i + 1, u) else SortedAround(s, lt, l0, u0, l, i - 1)
  {
    forall x, y | l0 <= x < y <= u0 && (if left then x < i + 1 || y > u else x < l || y > i - 1) ensures !lt(s[y], s[x]) {
      if l <= x && y <= u {
        if x < i < y { assert !lt(s[i], s[x]) && !lt(s[y], s[i]); }
      }
    }
  }

  // The first part, or the second one, is the smaller.
  lemma HalfDepth(d: nat, depth: nat, l0: nat, u0: int, l: nat, u: int, i: nat)
    requires l0 <= l < i <= u <= u0 && u - l >= 3 && Pow2(depth) <= Size(l0, u0)
    requires if i - l < u - i then Pow2(d) <= Size(l, i - 1) else Pow2(d) <= Size(i + 1, u)
    ensures Pow2(if 1 + d > depth then 1 + d else depth) <= Size(l0, u0)
  {}

  // ----- depth -----

  function Size(l: int, u: int): nat { if u < l then 1 else u - l + 1 }

  lemma {:induction false} DepthBound(d: nat, n: nat)
    requires Pow2(d) < Pow2(n)
    ensures d < n
    decreases d
  {
    if d > 0 && n > 0 { DepthBound(d - 1, n - 1); } else if n == 0 { PowPositive(d); }
  }

  lemma {:induction false} PowPositive(d: nat)
    ensures Pow2(d) >= 1
  {
    if d > 0 { PowPositive(d - 1); }
  }
}
