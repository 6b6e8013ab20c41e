// The operator '&' on numbers without a sign, and masks.
module BitMasks {

  // '&', bit by bit
  function And(x: nat, y: nat): (r: nat) {
    if x == 0 then 0 else 2 * And(x / 2, y / 2) + (x % 2) * (y % 2)
  }

  function Ones(n: nat): nat { if n == 0 then 0 else 2 * Ones(n - 1) + 1 }

  lemma {:induction false} AndOnes(x: nat, n: nat)
    requires x <= Ones(n)
    ensures And(x, Ones(n)) == x
    decreases n
  {
    if x > 0 { AndOnes(x / 2, n - 1); }
  }

  lemma {:induction false} OnesAdd(m: nat, n: nat)
    ensures Ones(m + n) == Ones(m) * (Ones(n) + 1) + Ones(n)
    decreases n
  {
    if n > 0 {
      OnesAdd(m, n - 1);
      assert Ones(m + n) == 2 * Ones(m + (n - 1)) + 1;
      Doubled(Ones(m), Ones(n - 1) + 1);
    }
  }

  lemma Doubled(a: nat, b: nat)
    ensures a * (2 * b) == 2 * (a * b)
  {}

  lemma AndBit(x: nat, y: nat, b: nat, c: nat)
    requires b < 2 && c < 2
    ensures And(2 * x + b, 2 * y + c) == 2 * And(x, y) + b * c
  {}

  // A mask of ones takes the remainder.
  lemma {:induction false} AndMod(x: nat, n: nat)
    ensures And(x, Ones(n)) == x % (Ones(n) + 1)
    decreases n
  {
    if n == 0 {
      AndNothing(x);
    } else {
      var a, b := x / 2, x % 2;
      AndMod(a, n - 1);
      hide And;
      AndBit(a, Ones(n - 1), b, 1);
      DoubleMod(a, b, Ones(n - 1) + 1);
    }
  }

  lemma {:induction false} AndNothing(x: nat)
    ensures And(x, 0) == 0
    decreases x
  {
    if x > 0 { AndNothing(x / 2); }
  }

  lemma DoubleMod(a: nat, b: nat, m: nat)
    requires m > 0 && b < 2
    ensures (2 * a + b) % (2 * m) == 2 * (a % m) + b
  {
    var q, r := a / m, a % m;
    assert a == m * q + r;
    assert 2 * a + b == (2 * m) * q + (2 * r + b);
    ModUnique(2 * a + b, 2 * m, q, 2 * r + b);
  }

  lemma ModUnique(x: nat, m: nat, k: nat, t: nat)
    requires m > 0 && x == m * k + t && t < m
    ensures x % m == t
  {
    var q, r := x / m, x % m;
    assert m * q + r == x;
    assert m * (k - q) == r - t;
    Multiples(m, k - q);
  }

  lemma Multiples(m: int, d: int)
    requires m > 0
    ensures (d >= 1 ==> m * d >= m) && (d <= -1 ==> m * d <= -m)
  {}
}
