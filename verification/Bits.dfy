/** Unsigned bit operations on naturals, bit by bit, and the facts about powers of two that
    table sizes and bucket masks rest on. */
module Bits {
  function Pow2(k: nat): (p: nat)
    ensures p >= 1
  {
    if k == 0 then 1 else 2 * Pow2(k - 1)
  }

  ghost predicate IsPow2(n: int) {
    exists k: nat :: n == Pow2(k)
  }

  function And(a: nat, b: nat): (r: nat)
    ensures r <= b
  {
    if a == 0 || b == 0 then 0
    else (if a % 2 == 1 && b % 2 == 1 then 1 else 0) + 2 * And(a / 2, b / 2)
  }

  function Or(a: nat, b: nat): nat {
    if a == 0 then b
    else if b == 0 then a
    else (if a % 2 == 1 || b % 2 == 1 then 1 else 0) + 2 * Or(a / 2, b / 2)
  }

  /** Logical shift right. */
  function Shr(a: nat, k: nat): nat
    decreases k
  {
    if k == 0 then a else Shr(a / 2, k - 1)
  }

  lemma {:induction false} Pow2Monotone(j: nat, k: nat)
    requires j < k
    ensures 2 * Pow2(j) <= Pow2(k)
  {
    if j + 1 < k { Pow2Monotone(j, k - 1); }
  }

  lemma {:induction false} Pow2Add(j: nat, k: nat)
    ensures Pow2(j + k) == Pow2(j) * Pow2(k)
  {
    if j > 0 {
      Pow2Add(j - 1, k);
      assert Pow2(j + k) == 2 * Pow2(j - 1 + k);
    }
  }

  /** Doubling a power of two gives the next one: no power lies strictly in between. */
  lemma DoubleIsPow2(n: int)
    requires IsPow2(n)
    ensures IsPow2(2 * n)
  {
    var k: nat :| n == Pow2(k);
    assert 2 * n == Pow2(k + 1);
  }

  lemma AndOdd(h: nat, m: nat)
    ensures And(h, 2 * m + 1) == h % 2 + 2 * And(h / 2, m)
  {
  }

  /** Masking with `2^k - 1` is the remainder modulo `2^k`. */
  lemma {:induction false} AndMaskIsMod(h: nat, k: nat)
    ensures And(h, Pow2(k) - 1) == h % Pow2(k)
  {
    if k > 0 {
      var p := Pow2(k - 1);
      AndMaskIsMod(h / 2, k - 1);
      AndOdd(h, p - 1);
      ModDouble(h, p);
    }
  }

  lemma ModDouble(h: nat, p: nat)
    requires p >= 1
    ensures h % (2 * p) == h % 2 + 2 * (h / 2 % p)
  {
    var q, r := h / 2 / p, h / 2 % p;
    assert h / 2 == q * p + r;
    assert h == 2 * (q * p + r) + h % 2;
    assert h == (2 * p) * q + (2 * r + h % 2);
    DivModUnique(h, 2 * p, q, 2 * r + h % 2);
  }

  lemma Distribute(d: int, a: int, b: int)
    ensures d * (a - b) == d * a - d * b
  {
  }

  lemma MulAtLeast(d: int, a: int)
    requires d > 0 && a >= 1
    ensures d * a >= d
  {
  }

  lemma DivModUnique(n: int, d: int, q: int, r: int)
    requires d > 0 && 0 <= r < d && n == d * q + r
    ensures n / d == q && n % d == r
  {
    var q', r' := n / d, n % d;
    assert n == d * q' + r';
    Distribute(d, q, q');
    if q > q' {
      MulAtLeast(d, q - q');
    } else if q < q' {
      Distribute(d, q', q);
      MulAtLeast(d, q' - q);
    }
  }

  /** The remainder is the only number below d that differs from n by a multiple of d. */
  lemma RemainderIsCongruent(n: int, d: int, i: int)
    requires 0 <= i < d
    ensures i == n % d <==> (n - i) % d == 0
  {
    if i == n % d {
      var q := n / d;
      assert n - i == d * q + 0;
      DivModUnique(n - i, d, q, 0);
    }
    if (n - i) % d == 0 {
      var q := (n - i) / d;
      assert n == d * q + i;
      DivModUnique(n, d, q, i);
    }
  }

  lemma MaskIsMod(h: nat, n: nat)
    requires IsPow2(n)
    ensures And(h, n - 1) == h % n
  {
    var k: nat :| n == Pow2(k);
    AndMaskIsMod(h, k);
  }

  /** What the table doubling relies on: a hash that falls in bucket b of a table of size n falls
      in bucket b or b + n of a table of size 2n. */
  lemma BucketSplits(h: nat, n: nat)
    requires n >= 1
    ensures h % (2 * n) == h % n || h % (2 * n) == h % n + n
  {
    var q, r := h / (2 * n), h % (2 * n);
    assert h == (2 * n) * q + r;
    if r < n {
      assert h == n * (2 * q) + r;
      DivModUnique(h, n, 2 * q, r);
    } else {
      assert h == n * (2 * q + 1) + (r - n);
      DivModUnique(h, n, 2 * q + 1, r - n);
    }
  }

  lemma {:induction false} OrShr(a: nat, b: nat, k: nat)
    ensures Shr(Or(a, b), k) == Or(Shr(a, k), Shr(b, k))
    decreases k
  {
    if k > 0 {
      OrHalves(a, b);
      OrShr(a / 2, b / 2, k - 1);
    }
  }

  lemma OrHalves(a: nat, b: nat)
    ensures Or(a, b) / 2 == Or(a / 2, b / 2)
    ensures Or(a, b) % 2 == if a % 2 == 1 || b % 2 == 1 then 1 else 0
  {
  }

  lemma {:induction false} ShrShr(a: nat, j: nat, k: nat)
    ensures Shr(Shr(a, j), k) == Shr(a, j + k)
    decreases j
  {
    if j > 0 { ShrShr(a / 2, j - 1, k); }
  }

  predicate Bit(a: nat, i: nat) {
    Shr(a, i) % 2 == 1
  }

  lemma BitOfOr(a: nat, b: nat, i: nat)
    ensures Bit(Or(a, b), i) <==> Bit(a, i) || Bit(b, i)
  {
    OrShr(a, b, i);
    OrHalves(Shr(a, i), Shr(b, i));
  }

  lemma BitOfShr(a: nat, k: nat, i: nat)
    ensures Bit(Shr(a, k), i) <==> Bit(a, k + i)
  {
    ShrShr(a, k, i);
  }

  /** A number in [2^(l-1), 2^l) has bit l-1 set and nothing above it. */
  lemma {:induction false} TopBit(a: nat, l: nat)
    requires l >= 1 && Pow2(l - 1) <= a < Pow2(l)
    ensures Bit(a, l - 1) && forall i: nat :: i >= l ==> !Bit(a, i)
    decreases l
  {
    forall i: nat | i >= l ensures !Bit(a, i) { NoHighBit(a, l, i); }
    if l > 1 { TopBit(a / 2, l - 1); }
  }

  lemma {:induction false} NoHighBit(a: nat, l: nat, i: nat)
    requires a < Pow2(l) && i >= l
    ensures !Bit(a, i)
    decreases i
  {
    if i > 0 {
      if l > 0 { NoHighBit(a / 2, l - 1, i - 1); } else { NoHighBit(0, 0, i - 1); }
    }
  }

  /** A number whose set bits are exactly 0 .. l-1 is `2^l - 1`. */
  lemma {:induction false} OnesValue(a: nat, l: nat)
    requires forall i: nat :: Bit(a, i) <==> i < l
    ensures a == Pow2(l) - 1
    decreases a + l
  {
    forall i: nat ensures Bit(a / 2, i) <==> Bit(a, i + 1) {}
    if l > 0 {
      assert Bit(a, 0);
      OnesValue(a / 2, l - 1);
    } else if a > 0 {
      assert !Bit(a, 0);
      OnesValue(a / 2, 0);
    }
  }

  /** Every positive number lies between two consecutive powers of two. */
  lemma {:induction false} BitLength(a: nat) returns (l: nat)
    requires a >= 1
    ensures l >= 1 && Pow2(l - 1) <= a < Pow2(l)
    decreases a
  {
    if a == 1 {
      l := 1;
      assert Pow2(1) == 2 * Pow2(0);
    } else {
      l := BitLength(a / 2);
      l := l + 1;
    }
  }
}
