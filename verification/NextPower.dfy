/** `nextPower`: the table size chosen for a requested capacity (database/dick.go:448-462). */
module NextPower {
  import opened Wrappers
  import opened Bits

  const INITIAL_SIZE: nat := 128

  const LARGEST_POWER: int := 0x4000_0000_0000_0000  // the largest power of two an int64 holds

  /** int64 increment, wrapping past the maximum. */
  function Increment(n: Int64): Int64 {
    if n == MAX_INT64 then MIN_INT64 else n + 1
  }

  lemma InitialIsPow2()
    ensures INITIAL_SIZE == Pow2(7)
  {
    assert Pow2(2) == 4 && Pow2(3) == 2 * Pow2(2);
    Pow2Add(3, 4);
    Pow2Add(2, 2);
  }

  lemma LargestPower()
    ensures LARGEST_POWER == Pow2(62)
  {
    InitialIsPow2();
    Pow2Add(7, 7);
    Pow2Add(14, 14);
    Pow2Add(28, 28);
    Doublings(56);
  }

  lemma Doublings(k: nat)
    ensures Pow2(k + 6) == 64 * Pow2(k)
  {
    assert Pow2(k + 2) == 2 * Pow2(k + 1) && Pow2(k + 1) == 2 * Pow2(k);
    assert Pow2(k + 4) == 2 * Pow2(k + 3) && Pow2(k + 3) == 2 * Pow2(k + 2);
    assert Pow2(k + 6) == 2 * Pow2(k + 5) && Pow2(k + 5) == 2 * Pow2(k + 4);
  }

  ghost predicate TableSize(n: int) {
    n >= INITIAL_SIZE && IsPow2(n)
  }

  /** Bits l-m .. l-1 (those that exist) are set and none from l on. */
  ghost predicate TopOnes(a: nat, l: nat, m: nat) {
    forall i: nat ::
      && (l <= i + m && i < l ==> Bit(a, i))
      && (i >= l ==> !Bit(a, i))
  }

  lemma SmearStep(a: nat, l: nat, m: nat)
    requires TopOnes(a, l, m)
    ensures TopOnes(Or(a, Shr(a, m)), l, 2 * m)
  {
    var b := Or(a, Shr(a, m));
    forall i: nat
      ensures (l <= i + 2 * m && i < l ==> Bit(b, i)) && (i >= l ==> !Bit(b, i))
    {
      BitOfOr(a, Shr(a, m), i);
      BitOfShr(a, m, i);
    }
  }

  lemma SmearDone(a: nat, l: nat, m: nat)
    requires TopOnes(a, l, m) && l <= m
    ensures a + 1 == Pow2(l)
  {
    OnesValue(a, l);
  }

  /** The six doubling smears turn a positive 63-bit number into all ones below its top bit. */
  lemma Smeared(a: nat, l: nat)
    requires 1 <= l <= 63 && Pow2(l - 1) <= a < Pow2(l)
    ensures var s1 := Or(a, Shr(a, 1));
            var s2 := Or(s1, Shr(s1, 2));
            var s3 := Or(s2, Shr(s2, 4));
            var s4 := Or(s3, Shr(s3, 8));
            var s5 := Or(s4, Shr(s4, 16));
            Or(s5, Shr(s5, 32)) + 1 == Pow2(l)
  {
    TopBit(a, l);
    var s1 := Or(a, Shr(a, 1));
    var s2 := Or(s1, Shr(s1, 2));
    var s3 := Or(s2, Shr(s2, 4));
    var s4 := Or(s3, Shr(s3, 8));
    var s5 := Or(s4, Shr(s4, 16));
    var s6 := Or(s5, Shr(s5, 32));
    assert TopOnes(a, l, 1);
    SmearStep(a, l, 1);
    SmearStep(s1, l, 2);
    SmearStep(s2, l, 4);
    SmearStep(s3, l, 8);
    SmearStep(s4, l, 16);
    SmearStep(s5, l, 32);
    SmearDone(s6, l, 64);
  }

  /** The least table size holding `size` entries. */
  function Rounded(size: int): (r: int)
    ensures TableSize(r) && r >= size
    ensures forall p :: TableSize(p) && p >= size ==> r <= p
  {
    InitialIsPow2();
    RoundedFrom(INITIAL_SIZE, size)
  }

  function RoundedFrom(p: nat, size: int): (r: int)
    requires TableSize(p)
    ensures TableSize(r) && r >= size && r >= p
    ensures forall q :: TableSize(q) && q >= size && q >= p ==> r <= q
    decreases size - p
  {
    if p >= size then p
    else
      NoPowerBetween(p);
      RoundedFrom(2 * p, size)
  }

  lemma NoPowerBetween(p: nat)
    requires TableSize(p)
    ensures TableSize(2 * p)
    ensures forall q :: IsPow2(q) && q > p ==> q >= 2 * p
  {
    DoubleIsPow2(p);
    var j: nat :| p == Pow2(j);
    forall q | IsPow2(q) && q > p
      ensures q >= 2 * p
    {
      var k: nat :| q == Pow2(k);
      if k < j { Pow2Monotone(k, j); }
      Pow2Monotone(j, k);
    }
  }

  lemma RoundedFixed(p: nat)
    requires TableSize(p)
    ensures Rounded(p) == p
  {
  }

  /** For every int64: the least table size that holds `size` entries when an int64 can hold it,
      and the wrapped minimum otherwise. */
  method Compute(size: Int64) returns (r: Int64)
    ensures size <= LARGEST_POWER ==> r == Rounded(size)
    ensures size > LARGEST_POWER ==> r == MIN_INT64
  {
    if size <= INITIAL_SIZE {
      InitialIsPow2();
      return INITIAL_SIZE;
    }
    var s: nat := size - 1;
    ghost var l := BitLength(s);
    assert Pow2(l - 1) < size <= Pow2(l);
    RoundedUp(size, l);
    Smeared(s, l);
    s := Or(s, Shr(s, 1));
    s := Or(s, Shr(s, 2));
    s := Or(s, Shr(s, 4));
    s := Or(s, Shr(s, 8));
    s := Or(s, Shr(s, 16));
    s := Or(s, Shr(s, 32));
    r := Increment(s);
  }

  lemma RoundedUp(size: Int64, l: nat)
    requires size > INITIAL_SIZE && l >= 1 && Pow2(l - 1) < size <= Pow2(l)
    ensures Pow2(l) == Rounded(size) && l <= 63
    ensures if size <= LARGEST_POWER then Pow2(l) <= LARGEST_POWER else Pow2(l) == MAX_INT64 + 1
  {
    LargestPower();
    var k: nat :| Rounded(size) == Pow2(k);
    if k < l && k < l - 1 { Pow2Monotone(k, l - 1); }
    if k > l { Pow2Monotone(l, k); }
    assert TableSize(Pow2(l));
    assert Pow2(63) == 2 * Pow2(62);
    if l < 62 { Pow2Monotone(l, 62); }
    if l > 63 {
      if l > 64 { Pow2Monotone(63, l - 1); }
      assert false;
    }
  }
}
