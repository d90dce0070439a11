/** The few facts about division and multiplication that the address arithmetic needs. */
module Arith {
  lemma MulMono(a: int, b: int, k: int)
    requires a <= b && k >= 0
    ensures a * k <= b * k
  {
  }

  /** Quotient and remainder are unique. */
  lemma DivModUnique(v: int, k: int, q: int, r: int)
    requires k > 0 && v == q * k + r && 0 <= r < k
    ensures v / k == q && v % k == r
  {
    var q', r' := v / k, v % k;
    assert v == q' * k + r';
    if q < q' {
      MulMono(q + 1, q', k);
    } else if q' < q {
      MulMono(q' + 1, q, k);
    }
  }

  lemma ModShift(x: int, m: int, k: int)
    requires k > 0
    ensures (x + m * k) % k == x % k && (x + m * k) / k == x / k + m
  {
    assert (x / k + m) * k == x / k * k + m * k;
    DivModUnique(x + m * k, k, x / k + m, x % k);
  }

  /** Reducing modulo a multiple first changes nothing. */
  lemma ModOfMod(a: int, k: int, n: int)
    requires k > 0 && n > 0
    ensures k * n > 0 && a % (k * n) % k == a % k
  {
    MulMono(1, n, k);
    assert k * n >= k by { assert n * k == k * n; }
    var big := k * n;
    var q := a / big;
    assert a == a % big + q * big;
    assert q * big == (q * n) * k by { MulAssoc(q, n, k); }
    ModShift(a % big, q * n, k);
  }

  lemma MulAssoc(a: int, b: int, c: int)
    ensures a * (c * b) == (a * b) * c
  {
  }

  /** A quotient is no larger than what was divided. */
  function Quotient(v: nat, k: nat): (r: nat)
    requires k > 0
    ensures r <= v
  {
    QuotientSmall(v, k);
    v / k
  }

  lemma QuotientSmall(v: nat, k: nat)
    requires k > 0
    ensures 0 <= v / k <= v
  {
    if v / k > v {
      MulMono(v + 1, v / k, k);
      MulMono(1, k, v + 1);
    }
  }

  function Pow2(k: nat): (r: nat)
    ensures r > 0
  {
    if k == 0 then 1 else 2 * Pow2(k - 1)
  }

  lemma Pow2Words()
    ensures Pow2(32) == 0x1_0000_0000 && Pow2(64) == 0x1_0000_0000_0000_0000
  {
    assert Pow2(8) == 0x100;
    assert Pow2(16) == 0x1_0000;
    assert Pow2(24) == 0x100_0000;
    assert Pow2(32) == 0x1_0000_0000;
    assert Pow2(40) == 0x100_0000_0000;
    assert Pow2(48) == 0x1_0000_0000_0000;
    assert Pow2(56) == 0x100_0000_0000_0000;
  }

  /** Bitwise OR. */
  function Or(a: nat, b: nat): (r: nat)
    ensures r <= a + b
  {
    if a == 0 then b
    else if b == 0 then a
    else 2 * Or(a / 2, b / 2) + if a % 2 == 1 || b % 2 == 1 then 1 else 0
  }

  lemma OrHalf(a: nat, b: nat)
    ensures Or(a, b) / 2 == Or(a / 2, b / 2)
    ensures Or(a, b) % 2 == if a % 2 == 1 || b % 2 == 1 then 1 else 0
  {
  }

  ghost predicate OrSplits(a: nat, b: nat, p: nat)
    requires p > 0
  {
    Or(a, b) / p == Or(a / p, b / p) && Or(a, b) % p == Or(a % p, b % p)
  }

  lemma OrSplitsDouble(a: nat, b: nat, p: nat)
    requires p > 0 && OrSplits(a / 2, b / 2, p)
    ensures OrSplits(a, b, 2 * p)
  {
    hide Or;
    OrHalf(a, b);
    HalveFirst(a, p);
    HalveFirst(b, p);
    HalveFirst(Or(a, b), p);
    var low, low' := 2 * (a / 2 % p) + a % 2, 2 * (b / 2 % p) + b % 2;
    OrHalf(low, low');
    assert low / 2 == a / 2 % p && low' / 2 == b / 2 % p;
  }

  /** OR works on each field of a word by itself. */
  lemma {:induction false} OrField(a: nat, b: nat, k: nat)
    ensures OrSplits(a, b, Pow2(k))
    decreases k
  {
    hide Or, OrSplits;
    if k == 0 {
      OrSplitsOne(a, b);
    } else {
      OrField(a / 2, b / 2, k - 1);
      OrSplitsDouble(a, b, Pow2(k - 1));
    }
  }

  lemma OrSplitsOne(a: nat, b: nat)
    ensures OrSplits(a, b, 1)
  {
  }

  lemma HalveFirst(a: nat, p: nat)
    requires p > 0
    ensures a / (2 * p) == a / 2 / p && a % (2 * p) == 2 * (a / 2 % p) + a % 2
  {
    var h := a / 2;
    assert h == h / p * p + h % p;
    assert a == h / p * (2 * p) + (2 * (h % p) + a % 2) by {
      assert h / p * (2 * p) == 2 * (h / p * p);
    }
    DivModUnique(a, 2 * p, h / p, 2 * (h % p) + a % 2);
  }

  /** Bit `k` of a word. */
  function Bit(v: int, k: nat): (r: nat)
    ensures r < 2
  {
    v / Pow2(k) % 2
  }

  lemma BitHalf(v: nat, k: nat)
    ensures Bit(v, 0) == v % 2 && Bit(v, k + 1) == Bit(v / 2, k)
  {
    HalveFirst(v, Pow2(k));
  }

  /** The bits below `n` determine a word of `n` bits. */
  lemma {:induction false} BitsDetermine(a: nat, b: nat, n: nat)
    requires a < Pow2(n) && b < Pow2(n)
    requires forall k: nat :: k < n ==> Bit(a, k) == Bit(b, k)
    ensures a == b
    decreases n
  {
    if n > 0 {
      hide Bit;
      BitHalf(a, 0);
      BitHalf(b, 0);
      assert Bit(a, 0) == Bit(b, 0);
      forall k: nat | k < n - 1 ensures Bit(a / 2, k) == Bit(b / 2, k) {
        BitHalf(a, k);
        BitHalf(b, k);
        assert Bit(a, k + 1) == Bit(b, k + 1);
      }
      BitsDetermine(a / 2, b / 2, n - 1);
    }
  }

  /** A word all of whose bits below `n` are set. */
  lemma {:induction false} BitsOfOnes(n: nat, k: nat)
    ensures Bit(Pow2(n) - 1, k) == if k < n then 1 else 0
    decreases n
  {
    hide Bit;
    if n == 0 {
      BitOfSmall(0, 0, k);
    } else {
      var v := Pow2(n) - 1;
      assert v / 2 == Pow2(n - 1) - 1 && v % 2 == 1;
      if k == 0 {
        BitHalf(v, 0);
      } else {
        BitHalf(v, k - 1);
        BitsOfOnes(n - 1, k - 1);
      }
    }
  }

  lemma {:induction false} BitOfSmall(v: nat, n: nat, k: nat)
    requires v < Pow2(n) && k >= n
    ensures Bit(v, k) == 0
    decreases n
  {
    if n == 0 {
      assert v == 0 && 0 / Pow2(k) == 0 by { DivModUnique(0, Pow2(k), 0, 0); }
    } else {
      BitHalf(v, k - 1);
      BitOfSmall(v / 2, n - 1, k - 1);
    }
  }

  lemma {:induction false} BitOfQuotient(v: nat, a: nat, k: nat)
    ensures Bit(v / Pow2(a), k) == Bit(v, k + a)
    decreases a
  {
    if a == 0 {
      assert v / Pow2(0) == v;
    } else {
      hide Bit;
      BitOfQuotient(v / 2, a - 1, k);
      QuotientStep(v, a);
      BitHalf(v, k + a - 1);
    }
  }

  lemma QuotientStep(v: nat, a: nat)
    requires a > 0
    ensures v / Pow2(a) == v / 2 / Pow2(a - 1)
  {
    HalveFirst(v, Pow2(a - 1));
  }

  lemma {:induction false} BitOfRemainder(v: nat, a: nat, k: nat)
    ensures Bit(v % Pow2(a), k) == if k < a then Bit(v, k) else 0
    decreases a
  {
    hide Bit;
    if k >= a {
      BitOfSmall(v % Pow2(a), a, k);
    } else {
      HalveFirst(v, Pow2(a - 1));
      var r := v % Pow2(a);
      assert r / 2 == v / 2 % Pow2(a - 1) && r % 2 == v % 2;
      BitHalf(v, 0);
      BitHalf(r, 0);
      if k > 0 {
        BitHalf(v, k - 1);
        BitHalf(r, k - 1);
        BitOfRemainder(v / 2, a - 1, k - 1);
      }
    }
  }

  lemma {:induction false} BitOfMultiple(v: nat, a: nat, k: nat)
    ensures Bit(v * Pow2(a), k) == if k < a then 0 else Bit(v, k - a)
    decreases a
  {
    hide Bit;
    if a > 0 {
      var d, h := v * Pow2(a), v * Pow2(a - 1);
      assert d == 2 * h;
      BitHalf(d, 0);
      if k > 0 {
        BitHalf(d, k - 1);
        BitOfMultiple(v, a - 1, k - 1);
      }
    }
  }

  /** Adding a power of two where that bit is clear sets that bit and no other. */
  lemma {:induction false} BitSet(v: nat, k: nat, j: nat)
    requires Bit(v, k) == 0
    ensures Bit(v + Pow2(k), j) == if j == k then 1 else Bit(v, j)
    decreases k
  {
    hide Bit;
    var s := v + Pow2(k);
    BitHalf(v, 0);
    BitHalf(s, 0);
    if j > 0 {
      BitHalf(v, j - 1);
      BitHalf(s, j - 1);
    }
    if k > 0 {
      BitHalf(v, k - 1);
      assert s / 2 == v / 2 + Pow2(k - 1) && s % 2 == v % 2;
      if j > 0 { BitSet(v / 2, k - 1, j - 1); }
    }
  }

  /** A two-bit field, bit by bit. */
  lemma TwoBits(v: nat, k: nat)
    ensures v / Pow2(k) % 4 == Bit(v, k) + 2 * Bit(v, k + 1)
  {
    hide Bit, Pow2;
    BitOfQuotient(v, k, 0);
    BitOfQuotient(v, k, 1);
    LowTwoBits(Quotient(v, Pow2(k)));
  }

  lemma LowTwoBits(q: nat)
    ensures q % 4 == Bit(q, 0) + 2 * Bit(q, 1)
  {
    hide Bit;
    BitHalf(q, 0);
    BitHalf(q / 2, 0);
  }
}
