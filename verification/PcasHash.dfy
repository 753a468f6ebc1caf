/** The streaming hasher that picks the shard (pcas_hash/hasher.go, pcas_hash/hash.go). */
module PcasHash {
  import opened Wrappers

  function Sum4(a: bv32, b: bv32, c: bv32, d: bv32): bv32 {
    a + b + c + d
  }

  /** Folds h2 into h1, in wrapping 32-bit arithmetic. */
  function Combine(h1: bv32, h2: bv32): bv32 {
    h1 ^ Sum4(h2, 0x9e3779b9, h1 << 6, h1 >> 2)
  }

  function ByteAt(bs: Bytes, i: nat): bv32 {
    if i < |bs| then bs[i] as bv32 else 0
  }

  /** Up to four bytes, least significant first. */
  function Word(bs: Bytes): bv32 {
    ByteAt(bs, 0) | (ByteAt(bs, 1) << 8) | (ByteAt(bs, 2) << 16) | (ByteAt(bs, 3) << 24)
  }

  // ---------- closed form ----------

  /** The hash after n complete five-byte groups: the first four bytes of each are folded in, the
      fifth only triggers the fold. */
  function Folded(bs: Bytes, n: nat): bv32
    requires 5 * n <= |bs|
  {
    if n == 0 then 0
    else if n == 1 then Word(bs[..4])
    else Combine(Folded(bs, n - 1), Word(bs[5 * (n - 1)..5 * n - 1]))
  }

  /** The bytes after the last complete group. */
  function Tail(bs: Bytes): (t: Bytes)
    ensures |t| == |bs| % 5
  {
    bs[|bs| - |bs| % 5..]
  }

  /** The hash of a byte string. */
  function StringHash(bs: Bytes): bv32 {
    var n := |bs| / 5;
    if |bs| % 5 == 0 then Folded(bs, n)
    else if n == 0 then Word(Tail(bs))
    else Combine(Folded(bs, n), Word(Tail(bs)))
  }

  function Concat(parts: seq<Bytes>): Bytes {
    if parts == [] then [] else Concat(parts[..|parts| - 1]) + parts[|parts| - 1]
  }

  lemma {:induction false} FoldedPrefix(a: Bytes, b: Bytes, n: nat)
    requires 5 * n <= |a| && 5 * n <= |b| && a[..5 * n] == b[..5 * n]
    ensures Folded(a, n) == Folded(b, n)
  {
    hide Word, Combine;
    if n > 0 {
      var lo := 5 * (n - 1);
      assert a[..lo] == a[..5 * n][..lo] && b[..lo] == b[..5 * n][..lo];
      FoldedPrefix(a, b, n - 1);
      assert a[lo..lo + 4] == a[..5 * n][lo..lo + 4] && b[lo..lo + 4] == b[..5 * n][lo..lo + 4];
    }
  }

  // ---------- the hasher ----------

  class Hash {
    var h: bv32
    var idx: int
    const buf: array<bv8>
    var hasFirst: bool
    ghost var written: Bytes  // everything written since the last reset

    ghost predicate Valid()
      reads this, buf
    {
      && buf.Length == 4
      && idx == |written| % 5
      && h == Folded(written, |written| / 5)
      && hasFirst == (|written| >= 5)
      && buf[..idx] == Tail(written)
    }

    constructor ()
      ensures Valid() && written == [] && fresh(buf)
    {
      buf := new bv8[4](_ => 0);
      h, idx, hasFirst, written := 0, 0, false, [];
    }

    /** Whatever was written before, and whatever bytes stay in the buffer. */
    method Reset()
      requires buf.Length == 4
      modifies this
      ensures Valid() && written == []
    {
      h, idx, hasFirst := 0, 0, false;
      written := [];
    }

    /** Appends b: the state depends only on the concatenation of all writes. */
    method Write(b: Bytes) returns (n: nat)
      requires Valid()
      modifies this, buf
      ensures Valid() && written == old(written) + b && n == |b|
    {
      for i := 0 to |b|
        invariant Valid() && written == old(written) + b[..i]
      {
        WriteByte(b[i]);
        assert b[..i + 1] == b[..i] + [b[i]];
      }
      assert b[..|b|] == b;
      n := |b|;
    }

    method WriteByte(c: bv8)
      requires Valid()
      modifies this, buf
      ensures Valid() && written == old(written) + [c]
    {
      ghost var next := written + [c];
      NextByte(written, c);
      hide Folded, Tail;
      if idx < 4 {
        buf[idx] := c;
        idx := idx + 1;
      } else {
        var v := (buf[0] as bv32) | ((buf[1] as bv32) << 8) | ((buf[2] as bv32) << 16) | ((buf[3] as bv32) << 24);
        assert v == Word(buf[..4]) && buf[..4] == Tail(written);
        if hasFirst {
          h := Combine(h, v);
        } else {
          h := v;
          hasFirst := true;
        }
        idx := 0;
      }
      written := next;
    }

    /** How the closed form grows by one byte. */
    static lemma NextByte(bs: Bytes, c: bv8)
      ensures var n := |bs| / 5;
              var next := bs + [c];
              if |bs| % 5 < 4 then
                && |next| / 5 == n && |next| % 5 == |bs| % 5 + 1
                && Folded(next, n) == Folded(bs, n) && Tail(next) == Tail(bs) + [c]
              else
                |next| / 5 == n + 1 && |next| % 5 == 0 && Tail(next) == []
                && Folded(next, n + 1) == if n == 0 then Word(Tail(bs)) else Combine(Folded(bs, n), Word(Tail(bs)))
    {
      hide Word, Combine;
      var n := |bs| / 5;
      var next := bs + [c];
      assert bs[..5 * n] == next[..5 * n];
      FoldedPrefix(bs, next, n);
      if |bs| % 5 == 4 {
        assert next[5 * n..5 * n + 4] == Tail(bs);
        assert next[..4] == next[0..4];
      } else {
        TailGrows(bs, c);
      }
    }

    static lemma TailGrows(bs: Bytes, c: bv8)
      requires |bs| % 5 < 4
      ensures Tail(bs + [c]) == Tail(bs) + [c]
    {
      var next, from := bs + [c], |bs| - |bs| % 5;
      assert |next| - |next| % 5 == from;
      assert next[from..] == bs[from..] + [c];
    }

    /** The current hash value; the state stays. */
    method Value() returns (v: bv32)
      requires Valid()
      ensures v == StringHash(written)
    {
      v := h;
      if idx != 0 {
        var vv: bv32;
        if idx == 1 {
          vv := buf[0] as bv32;
        } else if idx == 2 {
          vv := (buf[0] as bv32) | ((buf[1] as bv32) << 8);
        } else if idx == 3 {
          vv := (buf[0] as bv32) | ((buf[1] as bv32) << 8) | ((buf[2] as bv32) << 16);
        } else {
          vv := (buf[0] as bv32) | ((buf[1] as bv32) << 8) | ((buf[2] as bv32) << 16) | ((buf[3] as bv32) << 24);
        }
        WordOfShort(buf[..idx]);
        assert vv == Word(buf[..idx]);
        if hasFirst {
          v := Combine(v, vv);
        } else {
          v := vv;
        }
      }
    }
  }

  /** The missing bytes of a short word contribute nothing. */
  lemma WordOfShort(bs: Bytes)
    requires |bs| <= 4
    ensures |bs| == 0 ==> Word(bs) == 0
    ensures |bs| == 1 ==> Word(bs) == bs[0] as bv32
    ensures |bs| == 2 ==> Word(bs) == (bs[0] as bv32) | ((bs[1] as bv32) << 8)
    ensures |bs| == 3 ==> Word(bs) == (bs[0] as bv32) | ((bs[1] as bv32) << 8) | ((bs[2] as bv32) << 16)
  {
  }

  /** Hashers are recycled through a pool, in whatever state they were left; the pool may also hand
      out a new one. */
  class Pool {
    var free: seq<Hash>

    ghost predicate Valid()
      reads this
    {
      forall i :: 0 <= i < |free| ==> free[i].buf.Length == 4
    }

    ghost function Buffers(): set<array<bv8>>
      reads this
    {
      set x | x in free :: x.buf
    }

    constructor ()
      ensures Valid() && free == []
    {
      free := [];
    }

    method New() returns (h: Hash)
      requires Valid()
      modifies this, free
      ensures Valid() && h.Valid() && h.written == []
      ensures (fresh(h) && fresh(h.buf)) || (h in old(free) && h.buf in old(Buffers()))
      ensures forall x :: x in free ==> x in old(free)
    {
      var recycle := *;
      if recycle && |free| > 0 {
        h := free[0];
        free := free[1..];
        h.Reset();
      } else {
        h := new Hash();
      }
    }

    method Reuse(h: Hash)
      requires Valid() && h.buf.Length == 4
      modifies this
      ensures Valid() && free == old(free) + [h]
    {
      free := free + [h];
    }
  }

  /** The hash of a byte slice: direct for up to four bytes, through a pooled hasher otherwise. */
  method ByteSlice(pool: Pool, s: Bytes) returns (v: bv32)
    requires pool.Valid()
    modifies pool, pool.free, pool.Buffers()
    ensures v == StringHash(s) && pool.Valid()
  {
    if |s| <= 4 {
      WordOfShort(s);
      assert Tail(s) == s || s == [];
    }
    if |s| == 0 {
      return 0;
    } else if |s| == 1 {
      return s[0] as bv32;
    } else if |s| == 2 {
      return (s[0] as bv32) | ((s[1] as bv32) << 8);
    } else if |s| == 3 {
      return (s[0] as bv32) | ((s[1] as bv32) << 8) | ((s[2] as bv32) << 16);
    } else if |s| == 4 {
      return (s[0] as bv32) | ((s[1] as bv32) << 8) | ((s[2] as bv32) << 16) | ((s[3] as bv32) << 24);
    }
    var h := pool.New();
    var n := h.Write(s);
    assert h.written == s;
    v := h.Value();
    pool.Reuse(h);
  }

  /** The hash of a list of strings is the hash of their concatenation. */
  method StringSlice(pool: Pool, parts: seq<Bytes>) returns (v: bv32)
    requires pool.Valid()
    modifies pool, pool.free, pool.Buffers()
    ensures v == StringHash(Concat(parts)) && pool.Valid()
  {
    if |parts| == 0 { return 0; }
    hide StringHash, Hash.Valid;
    var h := pool.New();
    for i := 0 to |parts|
      invariant h.Valid() && pool.Valid() && h.written == Concat(parts[..i])
      invariant (fresh(h) && fresh(h.buf)) || (h in old(pool.free) && h.buf in old(pool.Buffers()))
    {
      var n := h.Write(parts[i]);
      assert parts[..i + 1][..i] == parts[..i];
    }
    assert parts[..|parts|] == parts;
    v := h.Value();
    pool.Reuse(h);
  }

  // ---------- the hash in arithmetic ----------

  lemma ShiftsAreArithmetic(h: bv32)
    ensures h << 6 == 64 * h && h >> 2 == h / 4
  {
  }

  lemma XorBack(h: bv32, x: bv32)
    ensures (h ^ x) ^ h == x
  {
  }

  /** The sum in `Combine`, in wrapping 32-bit arithmetic without shifts. */
  function Sum(h: bv32, w: bv32, c: bv32): bv32 {
    w + c + 64 * h + h / 4
  }

  lemma SumIs(h: bv32, w: bv32, c: bv32)
    ensures Sum4(w, c, 64 * h, h / 4) == Sum(h, w, c)
  {
  }

  /** What `Combine` is. */
  lemma CombineIs(h1: bv32, h2: bv32)
    ensures Combine(h1, h2) ^ h1 == Sum(h1, h2, 0x9e3779b9)
    ensures Combine(h1, h2) == h1 ^ Sum(h1, h2, 0x9e3779b9)
  {
    ShiftsAreArithmetic(h1);
    SumIs(h1, h2, 0x9e3779b9);
    XorBack(h1, Sum(h1, h2, 0x9e3779b9));
    hide Sum4, Sum;
  }

  /** A byte string as a number to the base 256, least significant byte first. */
  function Number(bs: Bytes): bv32 {
    if bs == [] then 0 else bs[0] as bv32 + 0x100 * Number(bs[1..])
  }

  lemma WordIsSum(b0: bv32, b1: bv32, b2: bv32, b3: bv32)
    requires b0 < 0x100 && b1 < 0x100 && b2 < 0x100 && b3 < 0x100
    ensures b0 | (b1 << 8) | (b2 << 16) | (b3 << 24) == b0 + 0x100 * (b1 + 0x100 * (b2 + 0x100 * b3))
  {
  }

  lemma WordIsNumber(bs: Bytes)
    requires |bs| <= 4
    ensures Word(bs) == Number(bs)
  {
    WordIsSum(ByteAt(bs, 0), ByteAt(bs, 1), ByteAt(bs, 2), ByteAt(bs, 3));
    NumberIsSum(bs);
  }

  lemma NumberIsSum(bs: Bytes)
    requires |bs| <= 4
    ensures Number(bs) ==
            ByteAt(bs, 0) + 0x100 * (ByteAt(bs, 1) + 0x100 * (ByteAt(bs, 2) + 0x100 * ByteAt(bs, 3)))
  {
    if |bs| > 0 { assert bs[1..] == [] || bs[1..][0] == bs[1]; }
    if |bs| > 1 { assert bs[1..][1..] == bs[2..]; }
    if |bs| > 2 { assert bs[2..][1..] == bs[3..]; }
    if |bs| > 3 { assert bs[3..][1..] == []; }
  }

  /** The words of a byte string: the first four bytes of each group of five, or what there is of them. */
  function Words(bs: Bytes): (ws: seq<bv32>)
    ensures |ws| == (|bs| + 4) / 5
  {
    seq((|bs| + 4) / 5, i requires 0 <= i < (|bs| + 4) / 5 =>
          Number(bs[5 * i..if 5 * i + 4 <= |bs| then 5 * i + 4 else |bs|]))
  }

  /** The first word, with every further one folded in. */
  function FoldWords(ws: seq<bv32>): bv32 {
    if ws == [] then 0
    else if |ws| == 1 then ws[0]
    else
      var h := FoldWords(ws[..|ws| - 1]);
      h ^ Sum(h, ws[|ws| - 1], 0x9e3779b9)
  }

  lemma {:induction false} FoldedIsFold(bs: Bytes, n: nat)
    requires 5 * n <= |bs|
    ensures Folded(bs, n) == FoldWords(Words(bs)[..n])
    decreases n
  {
    hide Word, Number, Combine, Sum;
    if n > 0 {
      var ws := Words(bs);
      FoldedIsFold(bs, n - 1);
      assert ws[..n][..n - 1] == ws[..n - 1];
      WordIsNumber(bs[5 * (n - 1)..5 * n - 1]);
      assert bs[0..4] == bs[..4];
      CombineIs(Folded(bs, n - 1), Word(bs[5 * (n - 1)..5 * n - 1]));
    }
  }

  /** The hash of a byte string is the fold of its words. */
  lemma StringHashIs(bs: Bytes)
    ensures StringHash(bs) == FoldWords(Words(bs))
  {
    hide Word, Number, Combine, Sum;
    var n, ws := |bs| / 5, Words(bs);
    FoldedIsFold(bs, n);
    if |bs| % 5 == 0 {
      assert ws[..n] == ws;
    } else {
      assert |ws| == n + 1 && Tail(bs) == bs[5 * n..] == bs[5 * n..|bs|];
      assert ws[n] == Number(Tail(bs));
      WordIsNumber(Tail(bs));
      CombineIs(Folded(bs, n), Word(Tail(bs)));
    }
  }

  /** Strings of one to five bytes hash to the number of their first four bytes. */
  lemma ShortHash(bs: Bytes)
    requires |bs| <= 5
    ensures StringHash(bs) == Number(if |bs| < 5 then bs else bs[..4])
  {
    hide Number, StringHash, Sum;
    StringHashIs(bs);
    NumberOfNone();
    if |bs| > 0 {
      assert Words(bs)[0] == Number(bs[0..if 4 <= |bs| then 4 else |bs|]);
      assert bs[0..|bs|] == bs;
    }
  }

  lemma NumberOfNone()
    ensures Number([]) == 0
  {
  }

  /** Two hashes: of `abc`, and of `abcdef`, which drops the `e` and folds the `f` in. */
  lemma TwoHashes()
    ensures StringHash([0x61, 0x62, 0x63]) == 0x0063_6261
    ensures StringHash([0x61, 0x62, 0x63, 0x64, 0x65, 0x66]) == 0xb44b_8896
  {
    var abc: Bytes := [0x61, 0x62, 0x63];
    assert Tail(abc) == abc;
    var all: Bytes := [0x61, 0x62, 0x63, 0x64, 0x65, 0x66];
    var front: Bytes := [0x61, 0x62, 0x63, 0x64];
    assert all[..4] == front && Tail(all) == [0x66];
    assert Word(front) == 0x6463_6261 && Word([0x66]) == 0x66;
    FoldOnce();
    hide Combine, Word;
  }

  lemma FoldOnce()
    ensures Combine(0x6463_6261, 0x66) == 0xb44b_8896
  {
  }

  // ---------- what the hash depends on ----------

  lemma XorUndo(h: bv32, x: bv32)
    ensures h ^ (h ^ x) == x
  {
  }

  function Minus3(s: bv32, b: bv32, c: bv32, d: bv32): bv32 {
    s - d - c - b
  }

  lemma WrittenOutSumUndo(a: bv32, b: bv32, c: bv32, d: bv32)
    ensures Minus3(a + b + c + d, b, c, d) == a
  {
  }

  lemma SumUndo(a: bv32, b: bv32, c: bv32, d: bv32)
    ensures Minus3(Sum4(a, b, c, d), b, c, d) == a
  {
    hide Minus3;
    WrittenOutSumUndo(a, b, c, d);
  }

  lemma MixInjective(h: bv32, a: bv32, b: bv32, u: bv32, v: bv32)
    requires h ^ Sum4(a, 0x9e3779b9, u, v) == h ^ Sum4(b, 0x9e3779b9, u, v)
    ensures a == b
  {
    hide Sum4, Minus3;
    XorUndo(h, Sum4(a, 0x9e3779b9, u, v));
    XorUndo(h, Sum4(b, 0x9e3779b9, u, v));
    SumUndo(a, 0x9e3779b9, u, v);
    SumUndo(b, 0x9e3779b9, u, v);
  }

  /** Folding different words into one hash gives different hashes. */
  lemma CombineInjective(h: bv32, a: bv32, b: bv32)
    requires Combine(h, a) == Combine(h, b)
    ensures a == b
  {
    hide Sum4;
    MixInjective(h, a, b, h << 6, h >> 2);
  }

  lemma WordInjective(a: Bytes, b: Bytes)
    requires |a| == |b| <= 4 && Word(a) == Word(b)
    ensures a == b
  {
    forall i | 0 <= i < |a| ensures a[i] == b[i] {
      WordByte(ByteAt(a, 0), ByteAt(a, 1), ByteAt(a, 2), ByteAt(a, 3));
    }
  }

  lemma WordByte(b0: bv32, b1: bv32, b2: bv32, b3: bv32)
    requires b0 < 0x100 && b1 < 0x100 && b2 < 0x100 && b3 < 0x100
    ensures var w := b0 | (b1 << 8) | (b2 << 16) | (b3 << 24);
            b0 == w & 0xff && b1 == (w >> 8) & 0xff && b2 == (w >> 16) & 0xff && b3 == w >> 24
  {
  }

  /** Every fifth byte is dropped: strings that agree everywhere else hash alike. */
  lemma FifthByteIgnored(a: Bytes, b: Bytes)
    requires |a| == |b| && forall i :: 0 <= i < |a| && i % 5 != 4 ==> a[i] == b[i]
    ensures StringHash(a) == StringHash(b)
  {
    var n := |a| / 5;
    FoldedIgnoresFifth(a, b, n);
    assert forall i :: 5 * n <= i < |a| ==> i % 5 != 4;
    assert Tail(a) == Tail(b);
  }

  lemma {:induction false} FoldedIgnoresFifth(a: Bytes, b: Bytes, n: nat)
    requires 5 * n <= |a| == |b| && forall i :: 0 <= i < |a| && i % 5 != 4 ==> a[i] == b[i]
    ensures Folded(a, n) == Folded(b, n)
  {
    hide Word, Combine;
    if n > 0 {
      var lo := 5 * (n - 1);
      FoldedIgnoresFifth(a, b, n - 1);
      GroupAgrees(a, b, lo);
      assert a[0..4] == a[..4] && b[0..4] == b[..4];
    }
  }

  lemma GroupAgrees(a: Bytes, b: Bytes, lo: nat)
    requires lo % 5 == 0 && lo + 5 <= |a| == |b|
    requires forall i :: 0 <= i < |a| && i % 5 != 4 ==> a[i] == b[i]
    ensures a[lo..lo + 4] == b[lo..lo + 4]
  {
    forall i | lo <= i < lo + 4 ensures a[i] == b[i] {
      assert i % 5 == i - lo;
    }
  }

  /** Strings of one length that agree on the complete groups hash alike exactly when their unfolded
      tails agree. */
  lemma TailDecides(a: Bytes, b: Bytes)
    requires |a| == |b| && a[..|a| - |a| % 5] == b[..|b| - |b| % 5]
    ensures StringHash(a) == StringHash(b) <==> Tail(a) == Tail(b)
  {
    var n := |a| / 5;
    FoldedPrefix(a, b, n);
    if StringHash(a) == StringHash(b) && |a| % 5 != 0 {
      if n > 0 { CombineInjective(Folded(a, n), Word(Tail(a)), Word(Tail(b))); }
      WordInjective(Tail(a), Tail(b));
    }
  }
}
