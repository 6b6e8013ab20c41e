// table.sort (auxsort in src/lua/ltablib.c): quicksort in place.  Position k of the table is a[k];
// a[0] is not used.
module SortTable {
  import opened Common
  import opened SortOrder

  // 'set2' after both elements were pushed
  method Swap<T>(a: array<T>, i: nat, j: nat, ghost l: nat, ghost u: nat)
    requires l <= i <= u && l <= j <= u && u < a.Length
    modifies a
    ensures a[..] == old(a[..])[i := old(a[j])][j := old(a[i])] && Perm(old(a[..]), a[..], l, u)
  {
    SwapPerm(a[..], i, j, l, u);
    a[i], a[j] := a[j], a[i];
  }

  // Sorts a[l], a[(l+u)/2] and a[u].
  method ThreeInOrder<T(!new)>(a: array<T>, lt: (T, T) -> bool, l: nat, u: nat) returns (i: nat)
    requires l + 2 <= u < a.Length
    requires StrictWeak(lt) ==> !lt(a[u], a[l])
    modifies a
    ensures i == (l + u) / 2 && l < i < u && Perm(old(a[..]), a[..], l, u)
    ensures StrictWeak(lt) ==> !lt(a[i], a[l]) && !lt(a[u], a[i]) && !lt(a[u], a[l])
  {
    i := (l + u) / 2;
    PermRefl(a[..], l, u);
    if lt(a[i], a[l]) {
      Swap(a, i, l, l, u);
    } else if lt(a[u], a[i]) {
      Swap(a, i, u, l, u);
    }
  }

  // The two scans and swaps around the pivot, which lies at u-1.
  method Partition<T(!new)>(a: array<T>, lt: (T, T) -> bool, l: nat, u: nat, p: T) returns (ok: bool, i: nat)
    requires l + 3 <= u < a.Length && a[u - 1] == p
    requires StrictWeak(lt) ==> !lt(p, a[l]) && !lt(a[u], p)
    modifies a
    ensures Perm(old(a[..]), a[..], l, u) && a[u - 1] == p && l < i <= u
    ensures StrictWeak(lt) ==> ok && i < u && (forall x :: l <= x < i ==> !lt(p, a[x])) && forall y :: i <= y <= u ==> !lt(a[y], p)
  {
    i := l;
    var j := u - 1;
    PermRefl(a[..], l, u);
    while true
      invariant l <= i <= j <= u - 1 && (i == l ==> j == u - 1) && a[u - 1] == p && Perm(old(a[..]), a[..], l, u)
      invariant i > l ==> j < u - 1
      invariant StrictWeak(lt) ==> (forall x :: l <= x <= i ==> !lt(p, a[x])) && forall y :: j <= y <= u ==> !lt(a[y], p)
      decreases u - i
    {
      var i0 := i;
      i := i + 1;
      while lt(a[i], p)
        invariant i0 < i <= u && (StrictWeak(lt) ==> i <= j || i == i0 + 1)
        invariant StrictWeak(lt) ==> forall x :: l <= x < i ==> !lt(p, a[x])
        decreases u - i
      {
        if i >= u { return false, i; }
        i := i + 1;
      }
      j := j - 1;
      while lt(p, a[j])
        invariant l <= j < u - 1 && (StrictWeak(lt) ==> i0 <= j + 1)
        invariant StrictWeak(lt) ==> forall y :: j < y <= u ==> !lt(a[y], p)
        decreases j
      {
        if j <= l { return false, i; }
        j := j - 1;
      }
      if j < i {
        return true, i;
      }
      Swap(a, i, j, l, u);
    }
  }

  // The pivot a[i] splits the stretch.
  method SplitAt<T(!new)>(a: array<T>, lt: (T, T) -> bool, l: nat, u: nat, mid: nat) returns (ok: bool, i: nat)
    requires l + 3 <= u < a.Length && l < mid < u
    requires StrictWeak(lt) ==> !lt(a[mid], a[l]) && !lt(a[u], a[mid])
    modifies a
    ensures Perm(old(a[..]), a[..], l, u) && l < i <= u
    ensures StrictWeak(lt) ==> ok && (forall x :: l <= x < i ==> !lt(a[i], a[x])) && forall y :: i < y <= u ==> !lt(a[y], a[i])
  {
    ghost var s := a[..];
    var p := a[mid];
    Swap(a, mid, u - 1, l, u);
    ghost var s1 := a[..];
    ok, i := Partition(a, lt, l, u, p);
    ghost var s2 := a[..];
    PermTrans(s, s1, s2, l, u);
    if !ok { return; }
    Swap(a, u - 1, i, l, u);
    PermTrans(s, s2, a[..], l, u);
  }

  // The body of the loop of auxsort up to the nested call; up to three elements it sorts itself.
  method Divide<T(!new)>(a: array<T>, lt: (T, T) -> bool, l: nat, u: nat) returns (ok: bool, small: bool, i: nat)
    requires l < u < a.Length
    modifies a
    ensures Perm(old(a[..]), a[..], l, u) && small == (u - l <= 2) && (StrictWeak(lt) ==> ok)
    ensures small && StrictWeak(lt) ==> Sorted(a[..], lt, l, u)
    ensures !small ==> l < i <= u
    ensures !small && StrictWeak(lt) ==> (forall x :: l <= x < i ==> !lt(a[i], a[x])) && forall y :: i < y <= u ==> !lt(a[y], a[i])
  {
    ghost var s := a[..];
    PermRefl(s, l, u);
    if lt(a[u], a[l]) { Swap(a, l, u, l, u); }
    if u - l == 1 { return true, true, l; }
    ghost var s1 := a[..];
    i := ThreeInOrder(a, lt, l, u);
    ghost var s2 := a[..];
    PermTrans(s, s1, s2, l, u);
    if u - l == 2 { return true, true, i; }
    ok, i := SplitAt(a, lt, l, u, i);
    PermTrans(s, s2, a[..], l, u);
    small := false;
  }

  // auxsort.  depth counts nested calls.  Whatever the order function answers, the positions stay
  // within l0 and u0 and no element is lost; with a strict weak order there is no error.
  method AuxSort<T(!new)>(a: array<T>, lt: (T, T) -> bool, l0: nat, u0: int) returns (ok: bool, ghost depth: nat)
    requires 1 <= l0 <= u0 + 1 && u0 < a.Length
    modifies a
    ensures Perm(old(a[..]), a[..], l0, u0)
    ensures StrictWeak(lt) ==> ok && Sorted(a[..], lt, l0, u0)
    ensures Pow2(depth) <= Size(l0, u0)
    decreases u0 - l0
  {
    hide Perm, SortedAround, Sorted, StrictWeak, Pow2;
    var l, u: int := l0, u0;
    depth := 0;
    ok := true;
    AtFirst(a[..], lt, l0, u0);
    while l < u
      invariant l0 <= l <= u + 1 && u <= u0 && Perm(old(a[..]), a[..], l0, u0) && Pow2(depth) <= Size(l0, u0) && ok
      invariant StrictWeak(lt) ==> SortedAround(a[..], lt, l0, u0, l, u)
      decreases u - l
    {
      ghost var s := a[..];
      var small, i;
      ok, small, i := Divide(a, lt, l, u);
      Carry(old(a[..]), s, a[..], lt, l0, u0, l, u);
      if !ok { return; }
      if small {
        if StrictWeak(lt) { AroundSorted(a[..], lt, l0, u0, l, u); }
        return;
      }
      ghost var s1, lower, upper := a[..], l, u;
      var j, k: int;
      if i - l < u - i {
        j := l;
        k := i - 1;
        l := i + 1;
      } else {
        j := i + 1;
        k := u;
        u := i - 1;
      }
      ghost var d;
      ok, d := AuxSort(a, lt, j, k);
      AfterPart(old(a[..]), s1, a[..], lt, l0, u0, lower, upper, i, i - lower < upper - i);
      HalfDepth(d, depth, l0, u0, lower, upper, i);
      depth := if 1 + d > depth then 1 + d else depth;
      if !ok { return; }
    }
    if StrictWeak(lt) { AtLast(a[..], lt, l0, u0, l, u); }
  }

  lemma AtFirst<T(!new)>(s: seq<T>, lt: (T, T) -> bool, l0: nat, u0: int)
    requires u0 < |s|
    ensures Perm(s, s, l0, u0) && SortedAround(s, lt, l0, u0, l0, u0) && Pow2(0) <= Size(l0, u0)
  {}

  lemma AtLast<T(!new)>(s: seq<T>, lt: (T, T) -> bool, l0: nat, u0: int, l: nat, u: int)
    requires SortedAround(s, lt, l0, u0, l, u) && l >= u
    ensures Sorted(s, lt, l0, u0)
  {}

  lemma Carry<T(!new)>(r: seq<T>, s: seq<T>, t: seq<T>, lt: (T, T) -> bool, l0: nat, u0: int, l: nat, u: int)
    requires Perm(r, s, l0, u0) && Perm(s, t, l, u) && l0 <= l && u <= u0
    ensures Perm(r, t, l0, u0)
    ensures StrictWeak(lt) && SortedAround(s, lt, l0, u0, l, u) ==> SortedAround(t, lt, l0, u0, l, u)
  {
    PermWiden(s, t, l, u, l0, u0);
    PermTrans(r, s, t, l0, u0);
    if StrictWeak(lt) && SortedAround(s, lt, l0, u0, l, u) { AroundStays(s, t, lt, l0, u0, l, u); }
  }

  // One part has been sorted; what is left is the other one.
  lemma AfterPart<T(!new)>(r: seq<T>, s: seq<T>, t: seq<T>, lt: (T, T) -> bool, l0: nat, u0: int, l: nat, u: int,
                    i: nat, left: bool)
    requires Perm(r, s, l0, u0) && l0 <= l < i <= u <= u0 < |s| && |t| == |s|
    requires if left then Perm(s, t, l, i - 1) else Perm(s, t, i + 1, u)
    ensures Perm(r, t, l0, u0)
    ensures StrictWeak(lt) && SortedAround(s, lt, l0, u0, l, u) && (forall x :: l <= x < i ==> !lt(s[i], s[x])) &&
            (forall y :: i < y <= u ==> !lt(s[y], s[i])) &&
            (if left then Sorted(t, lt, l, i - 1) else Sorted(t, lt, i + 1, u)) ==>
              if left then SortedAround(t, lt, l0, u0, i + 1, u) else SortedAround(t, lt, l0, u0, l, i - 1)
  {
    var j, k := if left then l else i + 1, if left then i - 1 else u;
    PermWiden(s, t, j, k, l, u);
    Carry(r, s, t, lt, l0, u0, l, u);
    if StrictWeak(lt) && SortedAround(s, lt, l0, u0, l, u) && (forall x :: l <= x < i ==> !lt(s[i], s[x])) && (forall y :: i < y <= u ==> !lt(s[y], s[i])) &&
       (if left then Sorted(t, lt, l, i - 1) else Sorted(t, lt, i + 1, u)) {
      if left { PermBelow(s, t, lt, l, i - 1, s[i]); } else { PermAbove(s, t, lt, i + 1, u, s[i]); }
      PartSorted(t, lt, l0, u0, l, u, i, left);
    }
  }

  // sort.  The elements are a[1] to a[n]; nested calls stay below 40 for n below 2^40, as the
  // stack check there assumes.
  method Sort<T(!new)>(a: array<T>, lt: (T, T) -> bool) returns (ok: bool, ghost depth: nat)
    requires a.Length >= 1
    modifies a
    ensures multiset(a[..]) == multiset(old(a[..])) && a[0] == old(a[0])
    ensures StrictWeak(lt) ==> ok && Sorted(a[..], lt, 1, a.Length - 1)
    ensures 1 < a.Length <= Pow2(40) ==> depth < 40
  {
    ok, depth := AuxSort(a, lt, 1, a.Length - 1);
    hide Pow2;
    if 1 < a.Length <= Pow2(40) { DepthBound(depth, 40); }
  }
}
