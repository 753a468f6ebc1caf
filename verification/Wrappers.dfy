/** Types shared by every component. Go strings are byte sequences. */
module Wrappers {
  datatype Option<+T> = None | Some(value: T)

  type Bytes = seq<bv8>

  /** What the database stores for a key. The `interface{}` is nil, a string, or what else the JSON of an
      HTTP request may hold (a number, a bool, an array, an object), told apart by a number here. */
  datatype Value = Nil | Str(text: Bytes) | Other(json: nat)

  /** The contents of a database. */
  type Map = map<Bytes, Value>

  const MIN_INT64: int := -0x8000_0000_0000_0000
  const MAX_INT64: int := 0x7FFF_FFFF_FFFF_FFFF

  type Int64 = n: int | MIN_INT64 <= n <= MAX_INT64

  /** The int64 that an integer result is stored as. */
  function Wrap64(n: int): (r: Int64)
    ensures MIN_INT64 <= n <= MAX_INT64 ==> r == n
  {
    var low := n % 0x1_0000_0000_0000_0000;
    if low <= MAX_INT64 then low else low - 0x1_0000_0000_0000_0000
  }

  function MapGet<K, V>(m: map<K, V>, k: K): Option<V> {
    if k in m then Some(m[k]) else None
  }

  lemma MapGrows<K, V>(m: map<K, V>, k: K, v: V)
    ensures |m[k := v]| == if k in m then |m| else |m| + 1
  {
    assert m[k := v].Keys == m.Keys + {k};
    assert |m.Keys| == |m| && |m[k := v].Keys| == |m[k := v]|;
  }

  lemma MapShrinks<K, V>(m: map<K, V>, k: K)
    ensures |m - {k}| == if k in m then |m| - 1 else |m|
  {
    assert (m - {k}).Keys == m.Keys - {k};
    assert |m.Keys| == |m| && |(m - {k}).Keys| == |m - {k}|;
  }

  lemma {:induction false} SubsetSize<T>(a: set<T>, b: set<T>)
    requires a <= b
    ensures |a| <= |b| && (|a| == |b| ==> a == b)
  {
    if a != {} {
      var x :| x in a;
      SubsetSize(a - {x}, b - {x});
      assert a == (a - {x}) + {x} && b == (b - {x}) + {x};
    }
  }
}
