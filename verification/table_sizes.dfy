// Choosing the size of the array part: the counting of integer keys and computesizes (ltable.c).
module TableSizes {
  import opened Common
  import opened TableNodes

  const MAXBITS: nat := 30
  const MAXASIZE: nat := 0x4000_0000

  lemma {:induction false} Pow2Grows(i: nat, j: nat)
    requires i <= j
    ensures Pow2(i) <= Pow2(j) && (i < j ==> 2 * Pow2(i) <= Pow2(j))
    decreases j
  {
    if i < j { Pow2Grows(i, j - 1); }
  }

  lemma Pow2Max()
    ensures Pow2(MAXBITS) == MAXASIZE
  {
    assert Pow2(10) == 1024;
    Pow2Sum(10, 10);
    Pow2Sum(20, 10);
  }

  lemma {:induction false} Pow2Sum(i: nat, j: nat)
    ensures Pow2(i + j) == Pow2(i) * Pow2(j)
    decreases j
  {
    if j > 0 {
      Pow2Sum(i, j - 1);
      Twice(Pow2(i), Pow2(j - 1));
    }
  }

  lemma Twice(a: int, b: int)
    ensures 2 * (a * b) == a * (2 * b)
  {}

  lemma Pow2Step(i: nat)
    ensures Pow2(i + 1) == 2 * Pow2(i)
  {}

  // ----- luaO_ceillog2 -----

  // Entry x of the table log_2: the number of binary digits of x.
  function Log2Entry(x: nat): nat
    requires x < 256
  {
    if x == 0 then 0 else if x < 2 then 1 else if x < 4 then 2 else if x < 8 then 3 else if x < 16 then 4
    else if x < 32 then 5 else if x < 64 then 6 else if x < 128 then 7 else 8
  }

  ghost predicate IsCeilLog2(x: nat, l: nat) {
    x <= Pow2(l) && (l > 0 ==> Pow2(l - 1) < x)
  }

  // Digits of y: l more than those of y / 256 per round.
  lemma Log2EntryOK(y: nat)
    requires y < 256
    ensures y < Pow2(Log2Entry(y)) && (Log2Entry(y) > 0 ==> Pow2(Log2Entry(y) - 1) <= y)
  {
    assert Pow2(2) == 4 && Pow2(4) == 16 && Pow2(6) == 64 && Pow2(8) == 256;
  }

  lemma Log2Shift(y: nat, d: nat)
    requires y / 256 < Pow2(d) && (d > 0 ==> Pow2(d - 1) <= y / 256) && y >= 256
    ensures y < Pow2(d + 8) && d > 0 && Pow2(d + 8 - 1) <= y
  {
    assert Pow2(8) == 256;
    Pow2Sum(d, 8);
    if d > 0 { Pow2Sum(d - 1, 8); }
  }

  // The number of binary digits.
  ghost function Digits(y: nat): (d: nat)
    ensures y < Pow2(d) && (d > 0 ==> Pow2(d - 1) <= y)
  {
    if y < 256 then Log2EntryOK(y); Log2Entry(y)
    else var d := Digits(y / 256); Log2Shift(y, d); d + 8
  }

  method CeilLog2(x: nat) returns (l: nat)
    requires x > 0
    ensures IsCeilLog2(x, l)
  {
    l := 0;
    var y := x - 1;
    while y >= 256
      invariant y >= 0 && Digits(x - 1) == l + Digits(y)
    {
      l := l + 8;
      y := y / 256;
    }
    l := l + Log2Entry(y);
    assert l == Digits(x - 1);
  }

  lemma CeilLog2Unique(x: nat, l: nat, l': nat)
    requires IsCeilLog2(x, l) && IsCeilLog2(x, l')
    ensures l == l'
  {
    hide Pow2;
    if l < l' { Pow2Grows(l, l' - 1); }
    if l' < l { Pow2Grows(l', l - 1); }
  }

  // ----- counting -----

  ghost function Slice(s: set<int>, lo: int, hi: int): set<int> { set k | k in s && lo < k <= hi }

  function Low(i: nat): nat { if i == 0 then 0 else Pow2(i - 1) }

  ghost predicate InRange(s: set<int>) { forall k :: k in s ==> 0 < k <= MAXASIZE }

  // nums[i] is the number of keys in (2^(i-1), 2^i].
  ghost predicate Counts(nums: seq<nat>, s: set<int>) {
    |nums| == MAXBITS + 1 && forall i :: 0 <= i < |nums| ==> nums[i] == |Slice(s, Low(i), Pow2(i))|
  }

  lemma SliceAdds(s: set<int>, lo: int, mid: int, hi: int)
    requires lo <= mid <= hi
    ensures |Slice(s, lo, hi)| == |Slice(s, lo, mid)| + |Slice(s, mid, hi)|
  {
    assert Slice(s, lo, hi) == Slice(s, lo, mid) + Slice(s, mid, hi);
    assert Slice(s, lo, mid) * Slice(s, mid, hi) == {};
  }

  lemma {:induction false} SliceFits(s: set<int>, lo: int, hi: int)
    requires lo <= hi
    ensures |Slice(s, lo, hi)| <= hi - lo
    decreases hi - lo
  {
    if lo == hi {
      assert Slice(s, lo, hi) == {};
    } else {
      SliceFits(s, lo, hi - 1);
      assert Slice(s, lo, hi) <= Slice(s, lo, hi - 1) + {hi};
      FewerOrSame(Slice(s, lo, hi), Slice(s, lo, hi - 1) + {hi});
    }
  }

  lemma SliceAll(s: set<int>, hi: int)
    requires InRange(s) && hi >= MAXASIZE
    ensures Slice(s, 0, hi) == s
  {}

  lemma SliceBound(k: int, lg: nat)
    requires 0 < k <= MAXASIZE && IsCeilLog2(k, lg)
    ensures lg <= MAXBITS && Low(lg) < k <= Pow2(lg)
  {
    hide Pow2;
    Pow2Max();
    if lg > MAXBITS { Pow2Grows(MAXBITS, lg - 1); }
  }

  lemma OneSlice(k: int, i: nat, j: nat)
    requires Low(i) < k <= Pow2(i) && Low(j) < k <= Pow2(j)
    ensures i == j
  {
    SlicesOrdered(i, j);
    SlicesOrdered(j, i);
  }

  lemma SlicesOrdered(i: nat, j: nat)
    ensures i < j ==> Pow2(i) <= Low(j)
  {
    if i < j { Pow2Grows(i, j - 1); }
  }

  // One more key, counted in its slice.
  lemma CountOne(nums: seq<nat>, s: set<int>, k: int, lg: nat)
    requires Counts(nums, s) && k !in s && 0 < k <= MAXASIZE && IsCeilLog2(k, lg)
    ensures lg <= MAXBITS && Counts(nums[lg := nums[lg] + 1], s + {k})
  {
    hide Pow2;
    Pow2Max();
    SliceBound(k, lg);
    forall i | 0 <= i < |nums| ensures nums[lg := nums[lg] + 1][i] == |Slice(s + {k}, Low(i), Pow2(i))| {
      if Low(i) < k <= Pow2(i) {
        OneSlice(k, lg, i);
        assert Slice(s + {k}, Low(i), Pow2(i)) == Slice(s, Low(i), Pow2(i)) + {k};
      } else {
        assert i != lg;
        assert Slice(s + {k}, Low(i), Pow2(i)) == Slice(s, Low(i), Pow2(i));
      }
    }
  }

  // countint
  method CountInt(key: Key, nums: array<nat>, ghost s: set<int>) returns (counted: nat)
    requires nums.Length == MAXBITS + 1 && Counts(nums[..], s) && (key.IntKey? ==> key.i !in s)
    modifies nums
    ensures Counts(nums[..], s + IndexOf(key)) && counted == |IndexOf(key)|
  {
    if key.IntKey? && 0 < key.i <= MAXASIZE {
      var lg := CeilLog2(key.i);
      CountOne(nums[..], s, key.i, lg);
      ghost var was := nums[..];
      nums[lg] := nums[lg] + 1;
      assert nums[..] == was[lg := was[lg] + 1];
      counted := 1;
    } else {
      assert s + IndexOf(key) == s;
      counted := 0;
    }
  }

  // The array indices that a key can be.
  ghost function IndexOf(key: Key): set<int> {
    if key.IntKey? && 0 < key.i <= MAXASIZE then {key.i} else {}
  }

  predicate Present(arr: seq<Val>, k: int) { 0 < k <= |arr| && arr[k - 1] != Nil }

  ghost function ArrayInts(arr: seq<Val>): set<int> { set k | 0 < k <= |arr| && Present(arr, k) }

  lemma SliceEmpty(s: set<int>, n: int)
    ensures Slice(s, n, n) == {}
  {}

  // numusearray
  method NumUseArray(arr: seq<Val>, nums: array<nat>) returns (ause: nat)
    requires nums.Length == MAXBITS + 1 && |arr| <= MAXASIZE && forall i :: 0 <= i < nums.Length ==> nums[i] == 0
    modifies nums
    ensures Counts(nums[..], ArrayInts(arr)) && ause == |ArrayInts(arr)|
  {
    hide Pow2, Slice, ArrayInts, Counts;
    ghost var s := ArrayInts(arr);
    ause := 0;
    var i := 1;
    var lg: nat, ttlg: nat := 0, 1;
    Pow2Zero();
    SliceEmpty(s, 0);
    while lg <= MAXBITS
      invariant 0 <= lg <= MAXBITS + 1 && ttlg == Pow2(lg) && i == 1 + (if Low(lg) <= |arr| then Low(lg) else |arr|)
      invariant forall q :: 0 <= q < lg ==> nums[q] == |Slice(s, Low(q), Pow2(q))|
      invariant forall q :: lg <= q < nums.Length ==> nums[q] == 0
      invariant ause == |Slice(s, 0, Low(lg))|
    {
      LowHalf(lg);
      Pow2Step(lg);
      var lim := ttlg;
      if lim > |arr| {
        lim := |arr|;
        if i > lim {
          break;
        }
      }
      var lc := CountSlice(arr, i, lim);
      SliceSame(arr, i - 1, lim, Low(lg), ttlg);
      nums[lg] := nums[lg] + lc;
      SliceAdds(s, 0, Low(lg), Pow2(lg));
      ause := ause + lc;
      i := lim + 1;
      lg, ttlg := lg + 1, ttlg * 2;
    }
    AllCounted(arr, lg, nums[..], ause);
  }

  lemma AllCounted(arr: seq<Val>, lg: nat, nums: seq<nat>, ause: nat)
    requires |arr| <= MAXASIZE && (lg == MAXBITS + 1 || Low(lg) >= |arr|) && |nums| == MAXBITS + 1 && lg <= MAXBITS + 1
    requires forall q :: 0 <= q < lg ==> nums[q] == |Slice(ArrayInts(arr), Low(q), Pow2(q))|
    requires forall q :: lg <= q < |nums| ==> nums[q] == 0
    requires ause == |Slice(ArrayInts(arr), 0, Low(lg))|
    ensures Counts(nums, ArrayInts(arr)) && ause == |ArrayInts(arr)|
  {
    NothingBeyond(arr, lg);
  }

  // The inner loop of numusearray.
  method CountSlice(arr: seq<Val>, from: nat, lim: nat) returns (lc: nat)
    requires 0 < from <= lim + 1 && lim <= |arr|
    ensures lc == |Slice(ArrayInts(arr), from - 1, lim)|
  {
    ghost var s := ArrayInts(arr);
    var i := from;
    lc := 0;
    assert Slice(s, from - 1, from - 1) == {};
    while i <= lim
      invariant from <= i <= lim + 1 && lc == |Slice(s, from - 1, i - 1)|
    {
      if arr[i - 1] != Nil {
        lc := lc + 1;
        assert Slice(s, from - 1, i) == Slice(s, from - 1, i - 1) + {i};
      } else {
        assert Slice(s, from - 1, i) == Slice(s, from - 1, i - 1);
      }
      i := i + 1;
    }
  }

  lemma SliceSame(arr: seq<Val>, lo: int, hi: int, lo': int, hi': int)
    requires (lo == lo' || (lo >= |arr| && lo' >= |arr|)) && (hi == hi' || (hi >= |arr| && hi' >= |arr|))
    ensures Slice(ArrayInts(arr), lo, hi) == Slice(ArrayInts(arr), lo', hi')
  {}

  // No element of the array part is left to count.
  lemma NothingBeyond(arr: seq<Val>, lg: nat)
    requires |arr| <= MAXASIZE && (lg == MAXBITS + 1 || Low(lg) >= |arr|)
    ensures forall q :: lg <= q <= MAXBITS ==> |Slice(ArrayInts(arr), Low(q), Pow2(q))| == 0
    ensures Slice(ArrayInts(arr), 0, Low(lg)) == ArrayInts(arr)
  {
    Pow2Max();
    forall q | lg <= q <= MAXBITS ensures |Slice(ArrayInts(arr), Low(q), Pow2(q))| == 0 {
      if lg > 0 { Pow2Grows(lg - 1, q - 1); }
      assert Slice(ArrayInts(arr), Low(q), Pow2(q)) == {};
    }
  }

  // ----- computesizes -----

  ghost predicate IsPower(n: nat) { exists i: nat :: i <= MAXBITS && n == Pow2(i) }

  // n is a power of two, or 0, such that more than half of 1..n are keys, and no larger power is.
  ghost predicate Optimal(s: set<int>, n: nat) {
    (n == 0 || (IsPower(n) && |Slice(s, 0, n)| > n / 2)) &&
    forall i: nat :: Pow2(i) > n ==> |Slice(s, 0, Pow2(i))| <= Pow2(i) / 2
  }

  method ComputeSizes(nums: array<nat>, narray: nat, ghost s: set<int>) returns (na: nat, n: nat)
    requires Counts(nums[..], s) && InRange(s) && narray == |s| && nums.Length == MAXBITS + 1
    ensures Optimal(s, n) && na == |Slice(s, 0, n)| && n <= MAXASIZE && n / 2 <= na <= n
  {
    hide Pow2, Slice, Counts, InRange, Best;
    var a := 0;
    na, n := 0, 0;
    var i: nat, twotoi: nat := 0, 1;
    Pow2Max();
    Pow2Zero();
    SliceEmpty(s, 0);
    BestBegins(s);
    while twotoi / 2 < narray
      invariant 0 <= i <= MAXBITS + 1 && twotoi == Pow2(i) && a == |Slice(s, 0, Low(i))| && (i > 0 ==> a != narray)
      invariant Best(s, i, n) && na == |Slice(s, 0, n)|
      decreases MAXBITS + 1 - i
    {
      SomeLeft(s, i, a);
      LowHalf(i);
      SliceAdds(s, 0, Low(i), Pow2(i));
      CountsAt(nums[..], s, i);
      if nums[i] > 0 {
        a := a + nums[i];
        if a > twotoi / 2 {
          n := twotoi;
          na := a;
          BestNow(s, i);
        } else {
          BestStill(s, i, n);
        }
      } else {
        SliceFits(s, 0, Low(i));
        BestStill(s, i, n);
      }
      if a == narray {
        Exhausted(s, i, n);
        PowerFits(s, n);
        return;
      }
      Pow2Step(i);
      i, twotoi := i + 1, twotoi * 2;
    }
    TooFew(s, i, n);
    PowerFits(s, n);
  }

  lemma CountsAt(nums: seq<nat>, s: set<int>, i: nat)
    requires Counts(nums, s) && i <= MAXBITS
    ensures i < |nums| && nums[i] == |Slice(s, Low(i), Pow2(i))|
  {}

  lemma BestBegins(s: set<int>)
    ensures Best(s, 0, 0)
  {}

  lemma PowerFits(s: set<int>, n: nat)
    requires n == 0 || IsPower(n)
    ensures n <= MAXASIZE && |Slice(s, 0, n)| <= n
  {
    hide Pow2;
    Pow2Max();
    SliceFits(s, 0, n);
    if n > 0 {
      var i: nat :| i <= MAXBITS && n == Pow2(i);
      Pow2Grows(i, MAXBITS);
    }
  }

  lemma Pow2Zero()
    ensures Pow2(0) == 1 && Low(0) == 0
  {}

  lemma LowHalf(i: nat)
    ensures Low(i) == Pow2(i) / 2 && Low(i + 1) == Pow2(i) && Low(i) <= Pow2(i)
  {}

  // n is the choice among the powers below 2^i.
  ghost predicate Best(s: set<int>, i: nat, n: nat) {
    n <= Low(i) && (n == 0 || (IsPower(n) && |Slice(s, 0, n)| > n / 2)) &&
    forall j: nat :: j < i && Pow2(j) > n ==> |Slice(s, 0, Pow2(j))| <= Pow2(j) / 2
  }

  lemma BestNow(s: set<int>, i: nat)
    requires i <= MAXBITS && |Slice(s, 0, Pow2(i))| > Pow2(i) / 2
    ensures Best(s, i + 1, Pow2(i))
  {
    forall j: nat | j < i + 1 ensures Pow2(j) <= Pow2(i) { Pow2Grows(j, i); }
  }

  lemma BestStill(s: set<int>, i: nat, n: nat)
    requires Best(s, i, n) && |Slice(s, 0, Pow2(i))| <= Pow2(i) / 2
    ensures Best(s, i + 1, n)
  {
    LowHalf(i);
  }

  lemma SomeLeft(s: set<int>, i: nat, a: nat)
    requires InRange(s) && i <= MAXBITS + 1 && a == |Slice(s, 0, Low(i))| && (i > 0 ==> a != |s|)
    ensures i <= MAXBITS
  {
    Pow2Max();
    if i == MAXBITS + 1 { SliceAll(s, MAXASIZE); }
  }

  lemma Exhausted(s: set<int>, i: nat, n: nat)
    requires |Slice(s, 0, Pow2(i))| == |s| && Best(s, i + 1, n)
    ensures Optimal(s, n)
  {
    hide Pow2;
    forall j: nat | Pow2(j) > n ensures |Slice(s, 0, Pow2(j))| <= Pow2(j) / 2 {
      if j > i {
        Pow2Grows(i, j);
        SliceFits(s, 0, Pow2(i));
        FewerOrSame(Slice(s, 0, Pow2(j)), s);
      }
    }
  }

  lemma TooFew(s: set<int>, i: nat, n: nat)
    requires Pow2(i) / 2 >= |s| && Best(s, i, n)
    ensures Optimal(s, n)
  {
    hide Pow2;
    forall j: nat | Pow2(j) > n ensures |Slice(s, 0, Pow2(j))| <= Pow2(j) / 2 {
      if j >= i {
        Pow2Grows(i, j);
        FewerOrSame(Slice(s, 0, Pow2(j)), s);
      }
    }
  }

  // More than half of the slots in use: the choice is the only one.
  lemma OptimalUnique(s: set<int>, n: nat, n': nat)
    requires Optimal(s, n) && Optimal(s, n')
    ensures n == n'
  {}
}
