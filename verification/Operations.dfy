/** The sharded database (database/operations.go, database/dick.go:34-82): every request goes to the
    shard its key hashes to, and all shards together are one map. */
module Operations {
  import opened Wrappers
  import opened DictSpec
  import opened DictRefinement
  import opened Dick
  import opened NextPower
  import PcasHash
  import Bits

  /** More entries than any memory holds; up to here the doubled size of a full table fits an int64. */
  const MAX_ENTRIES: nat := 0x2000_0000_0000_0000

  /** `pcas.String(key) % SubCount`. */
  function ShardOf(key: Bytes, count: nat): (i: nat)
    requires count > 0
    ensures i < count
  {
    (PcasHash.StringHash(key) as int) % count
  }

  /** The shard of a key is the only one that is congruent to its hash. */
  lemma ShardIsCongruent(key: Bytes, i: nat, count: nat)
    requires i < count
    ensures i == ShardOf(key, count) <==> (PcasHash.StringHash(key) as int - i) % count == 0
  {
    Bits.RemainderIsCongruent(PcasHash.StringHash(key) as int, count, i);
    hide PcasHash.StringHash;
  }

  /** Short keys are their own hash: a key of one byte goes to the shard of that number. */
  lemma OneByteShard(b: bv8, count: nat)
    requires count > 0
    ensures ShardOf([b], count) == (b as bv32 as int) % count
  {
    PcasHash.ShortHash([b]);
    assert [b][1..] == [];
    PcasHash.NumberOfNone();
  }

  /** The part of the map that shard i stores. */
  function Restrict(m: Map, i: nat, count: nat): Map
    requires count > 0
  {
    map k | k in m && ShardOf(k, count) == i :: m[k]
  }

  lemma RestrictSet(m: Map, k: Bytes, v: Value, i: nat, count: nat)
    requires count > 0
    ensures Restrict(m[k := v], i, count) ==
            if ShardOf(k, count) == i then Restrict(m, i, count)[k := v] else Restrict(m, i, count)
  {
  }

  lemma RestrictDel(m: Map, k: Bytes, i: nat, count: nat)
    requires count > 0
    ensures Restrict(m - {k}, i, count) ==
            if ShardOf(k, count) == i then Restrict(m, i, count) - {k} else Restrict(m, i, count)
  {
  }

  lemma RestrictHas(m: Map, k: Bytes, count: nat)
    requires count > 0
    ensures k in Restrict(m, ShardOf(k, count), count) <==> k in m
  {
  }

  lemma RestrictSets(m: Map, k: Bytes, v: Value, count: nat)
    requires count > 0
    ensures forall i: nat :: Restrict(m[k := v], i, count) ==
              if i == ShardOf(k, count) then Restrict(m, i, count)[k := v] else Restrict(m, i, count)
  {
    hide ShardOf, Restrict;
    forall i: nat
      ensures Restrict(m[k := v], i, count) ==
              if i == ShardOf(k, count) then Restrict(m, i, count)[k := v] else Restrict(m, i, count)
    {
      RestrictSet(m, k, v, i, count);
    }
  }

  lemma RestrictDels(m: Map, k: Bytes, count: nat)
    requires count > 0
    ensures forall i: nat :: Restrict(m - {k}, i, count) ==
              if i == ShardOf(k, count) then Restrict(m, i, count) - {k} else Restrict(m, i, count)
  {
    hide ShardOf, Restrict;
    forall i: nat
      ensures Restrict(m - {k}, i, count) ==
              if i == ShardOf(k, count) then Restrict(m, i, count) - {k} else Restrict(m, i, count)
    {
      RestrictDel(m, k, i, count);
    }
  }

  /** Requests on different keys, so all requests on different shards, commute: same map and same replies
      in either order. */
  lemma KeysCommute(m: Map, a: Op, b: Op)
    requires a.key != b.key
    ensures var (ma, ra) := MapStep(m, a);
            var (mb, rb) := MapStep(m, b);
            && MapStep(ma, b).0 == MapStep(mb, a).0
            && MapStep(ma, b).1 == rb && MapStep(mb, a).1 == ra
  {
  }

  /** The shard a request locks, computed as the source does: the byte hash, through a pooled hasher for
      longer keys. */
  method Shard(key: Bytes, count: nat) returns (idx: nat)
    requires count > 0
    ensures idx < count && (PcasHash.StringHash(key) as int - idx) % count == 0
    ensures idx == ShardOf(key, count)
  {
    var pool := new PcasHash.Pool();
    var hash := PcasHash.ByteSlice(pool, key);
    idx := (hash as int) % count;
    ShardIsCongruent(key, idx, count);
  }

  lemma RestrictSize(m: Map, i: nat, count: nat)
    requires count > 0
    ensures |Restrict(m, i, count)| <= |m|
  {
    var r := Restrict(m, i, count);
    assert r.Keys <= m.Keys;
    SubsetSize(r.Keys, m.Keys);
    assert |r.Keys| == |r| && |m.Keys| == |m|;
  }

  /** A shard holding the map m. */
  ghost predicate Stores(s: SubDICK, m: Map)
    reads s, s.Repr
  {
    s.Valid() && Represents(s.place, s.d, m)
  }

  method GetIn(s: SubDICK, key: Bytes, ghost m: Map) returns (value: Value)
    requires Stores(s, m)
    ensures value == if key in m then m[key] else Nil
  {
    var entry := s.Get(key);
    s.EntryOfLookup(key);
    assert Lookup(s.place, s.d, key) == MapGet(m, key);
    value := if entry == null then Nil else entry.value;
  }

  /** `Set` under the shard's lock: overwrite the entry found, else add one. It never fails. */
  method SetIn(s: SubDICK, key: Bytes, value: Value, ghost m: Map) returns (ok: bool)
    requires Stores(s, m) && |m| <= MAX_ENTRIES
    modifies s.Repr
    ensures Stores(s, m[key := value]) && s in s.Repr && fresh(s.Repr - old(s.Repr))
    ensures ok && s.d == Set(s.place, old(s.d), key, value)
  {
    SetRefines(s.place, s.d, m, key, value);
    MainUsed(s.place, s.d);
    s.EntryOfLookup(key);
    var entry := s.Get(key);
    hide DictSpec.Inv, DictSpec.Represents, DictSpec.Lookup;
    if entry != null {
      s.Store(entry, value, key);
      return true;
    }
    ok := s.Add(key, value);
  }

  lemma MainUsed(h: Placement, d: Dict)
    requires Inv(h, d)
    ensures d.t0.used <= d.Used()
  {
  }

  method DelIn(s: SubDICK, key: Bytes, ghost m: Map) returns (ok: bool)
    requires Stores(s, m)
    modifies s.Repr
    ensures Stores(s, m - {key}) && s in s.Repr && fresh(s.Repr - old(s.Repr))
    ensures (ok <==> key in m) && s.d == Del(s.place, old(s.d), key).0
  {
    DelRefines(s.place, s.d, m, key);
    var entry := s.Del(key);
    ok := entry != null;
  }

  class XDICK {
    const SubDICKs: seq<SubDICK>
    const SubCount: nat
    ghost var M: Map  // what the database stores

    /** The shards are separate objects. */
    ghost predicate Separate()
      reads this, SubDICKs
    {
      && |SubDICKs| == SubCount > 0
      && (forall i, j :: 0 <= i < j < SubCount ==> SubDICKs[i] != SubDICKs[j] && SubDICKs[i].Repr !! SubDICKs[j].Repr)
      && (forall i :: 0 <= i < SubCount ==> SubDICKs[i] in SubDICKs[i].Repr && this !in SubDICKs[i].Repr)
    }

    ghost predicate Valid()
      reads this, SubDICKs, set s, o | s in SubDICKs && o in s.Repr :: o
    {
      Separate() && forall i :: 0 <= i < SubCount ==> Stores(SubDICKs[i], Restrict(M, i, SubCount))
    }

    constructor (sub_dicks: nat, hasher: Hasher)
      requires sub_dicks > 0
      ensures Valid() && M == map[] && SubCount == sub_dicks
      ensures forall s :: s in SubDICKs ==> fresh(s) && fresh(s.Repr)
    {
      var shards := NewShards(sub_dicks, hasher);
      SubDICKs, SubCount, M := shards, sub_dicks, map[];
      new;
      hide SubDICK.Wired, DictSpec.Inv, DictSpec.Represents;
      forall i | 0 <= i < SubCount ensures Stores(SubDICKs[i], Restrict(M, i, SubCount)) {
        assert Restrict(map[], i, SubCount) == map[];
        NewRepresentsEmpty(SubDICKs[i].place);
      }
    }

    static method NewShards(sub_dicks: nat, hasher: Hasher) returns (shards: seq<SubDICK>)
      ensures |shards| == sub_dicks
      ensures forall s :: s in shards ==> fresh(s) && fresh(s.Repr) && s.Valid() && s.d == NEW
      ensures forall a, b :: 0 <= a < b < sub_dicks ==> shards[a] != shards[b] && shards[a].Repr !! shards[b].Repr
      ensures forall a :: 0 <= a < sub_dicks ==> shards[a] in shards[a].Repr
    {
      shards := [];
      for i := 0 to sub_dicks
        invariant |shards| == i
        invariant forall s :: s in shards ==> fresh(s) && fresh(s.Repr) && s.Valid() && s.d == NEW
        invariant forall a, b :: 0 <= a < b < i ==> shards[a] != shards[b] && shards[a].Repr !! shards[b].Repr
        invariant forall a :: 0 <= a < i ==> shards[a] in shards[a].Repr
      {
        var s := new SubDICK(hasher);
        shards := shards + [s];
      }
    }

    /** Everything the database is made of. */
    ghost function Objects(): set<object>
      reads this, SubDICKs
    {
      (set s: SubDICK, o: object | s in SubDICKs && o in s.Repr :: o) + {this}
    }

    method Get(key: Bytes) returns (value: Value)
      requires Valid()
      ensures value == if key in M then M[key] else Nil
      ensures (M, Got(value)) == MapStep(M, GetOp(key))
    {
      var idx := Shard(key, SubCount);
      value := GetIn(SubDICKs[idx], key, Restrict(M, idx, SubCount));
    }

    lemma ShardOwned(idx: nat)
      requires Separate() && idx < SubCount
      ensures SubDICKs[idx].Repr <= Objects()
    {
      assert SubDICKs[idx] in SubDICKs;
    }

    /** The shards together store m if shard idx stores its part of m and no other part has changed. */
    lemma StoredAll(idx: nat, m: Map)
      requires Separate() && idx < SubCount && Stores(SubDICKs[idx], Restrict(m, idx, SubCount))
      requires forall i :: 0 <= i < SubCount && i != idx ==>
                 Stores(SubDICKs[i], Restrict(M, i, SubCount)) && Restrict(m, i, SubCount) == Restrict(M, i, SubCount)
      ensures forall i :: 0 <= i < SubCount ==> Stores(SubDICKs[i], Restrict(m, i, SubCount))
    {
      hide Stores, Restrict;
    }

    /** The shards together store m. */
    ghost method Commit(m: Map)
      requires Separate() && forall i :: 0 <= i < SubCount ==> Stores(SubDICKs[i], Restrict(m, i, SubCount))
      modifies this`M
      ensures Valid() && M == m
    {
      M := m;
    }

    /** Updates the map. */
    method Set(key: Bytes, value: Value) returns (ok: bool)
      requires Valid() && |M| <= MAX_ENTRIES
      modifies Objects()
      ensures Valid() && fresh(Objects() - old(Objects()))
      ensures ok && M == old(M)[key := value]
      ensures (M, Stored) == MapStep(old(M), SetOp(key, value))
    {
      hide Stores, Restrict, ShardOf;
      var idx := Shard(key, SubCount);
      ok := SetOn(idx, key, value);
    }

    /** `Set` once the shard is known. */
    method SetOn(idx: nat, key: Bytes, value: Value) returns (ok: bool)
      requires Valid() && |M| <= MAX_ENTRIES && idx < SubCount && idx == ShardOf(key, SubCount)
      modifies Objects()
      ensures Valid() && fresh(Objects() - old(Objects()))
      ensures ok && M == old(M)[key := value]
    {
      RestrictSize(M, idx, SubCount);
      hide Restrict, ShardOf, Stores, Objects;
      ShardOwned(idx);
      ok := SetShard(idx, key, value);
      StoredAll(idx, M[key := value]) by { RestrictSets(M, key, value, SubCount); }
      Commit(M[key := value]);
    }

    /** `Set` on the key's shard: every other shard keeps its dictionary and its part of the map. */
    method SetShard(idx: nat, key: Bytes, value: Value) returns (ok: bool)
      requires Valid() && idx < SubCount && |Restrict(M, idx, SubCount)| <= MAX_ENTRIES
      modifies SubDICKs[idx].Repr
      ensures ok && Separate() && fresh(SubDICKs[idx].Repr - old(SubDICKs[idx].Repr))
      ensures fresh(Objects() - old(Objects()))
      ensures Stores(SubDICKs[idx], Restrict(M, idx, SubCount)[key := value])
      ensures forall i :: 0 <= i < SubCount && i != idx ==> SubDICKs[i].Repr == old(SubDICKs[i].Repr)
      ensures forall i :: 0 <= i < SubCount && i != idx ==>
                Stores(SubDICKs[i], Restrict(M, i, SubCount)) && SubDICKs[i].d == old(SubDICKs[i].d)
    {
      hide Stores, Restrict;
      assert forall i :: 0 <= i < SubCount ==> Stores(SubDICKs[i], Restrict(M, i, SubCount));
      ok := SetIn(SubDICKs[idx], key, value, Restrict(M, idx, SubCount));
    }

    /** `Del` on the key's shard: every other shard keeps its dictionary and its part of the map. */
    method DelShard(idx: nat, key: Bytes) returns (ok: bool)
      requires Valid() && idx < SubCount
      modifies SubDICKs[idx].Repr
      ensures (ok <==> key in Restrict(M, idx, SubCount)) && Separate()
      ensures fresh(SubDICKs[idx].Repr - old(SubDICKs[idx].Repr)) && fresh(Objects() - old(Objects()))
      ensures Stores(SubDICKs[idx], Restrict(M, idx, SubCount) - {key})
      ensures forall i :: 0 <= i < SubCount && i != idx ==> SubDICKs[i].Repr == old(SubDICKs[i].Repr)
      ensures forall i :: 0 <= i < SubCount && i != idx ==>
                Stores(SubDICKs[i], Restrict(M, i, SubCount)) && SubDICKs[i].d == old(SubDICKs[i].d)
    {
      hide Stores, Restrict;
      assert forall i :: 0 <= i < SubCount ==> Stores(SubDICKs[i], Restrict(M, i, SubCount));
      ok := DelIn(SubDICKs[idx], key, Restrict(M, idx, SubCount));
    }

    /** Removes the key, or reports that it is not there. */
    method Del(key: Bytes) returns (ok: bool)
      requires Valid()
      modifies Objects()
      ensures Valid() && fresh(Objects() - old(Objects()))
      ensures (ok <==> key in old(M)) && M == old(M) - {key}
      ensures (M, if ok then Deleted else NotFound) == MapStep(old(M), DelOp(key))
    {
      assert key !in M ==> M - {key} == M;
      hide Stores, Restrict, ShardOf;
      var idx := Shard(key, SubCount);
      ok := DelOn(idx, key);
    }

    /** `Del` once the shard is known. */
    method DelOn(idx: nat, key: Bytes) returns (ok: bool)
      requires Valid() && idx < SubCount && idx == ShardOf(key, SubCount)
      modifies Objects()
      ensures Valid() && fresh(Objects() - old(Objects()))
      ensures (ok <==> key in old(M)) && M == old(M) - {key}
    {
      RestrictHas(M, key, SubCount);
      hide Restrict, ShardOf, Stores, Objects;
      ShardOwned(idx);
      ok := DelShard(idx, key);
      StoredAll(idx, M - {key}) by { RestrictDels(M, key, SubCount); }
      Commit(M - {key});
    }
  }
}
