/** One shard in memory (database/dick.go, dickTable.go, DickEntry.go): two chained tables whose
    buckets, links and counters are rewritten in place. Each method is tied to its specification in
    `DictSpec` through the ghost dictionary `d`. */
module Dick {
  import opened Wrappers
  import opened DictSpec
  import opened NextPower
  import Bits

  type Hash64 = n: int | 0 <= n < 0x1_0000_0000_0000_0000

  /** The configured hash function, fixed for the whole run. */
  type Hasher = Bytes -> Hash64

  /** `hash & sizemask` in a table of n buckets. */
  function Masked(hash: Hash64, n: nat): nat {
    Bits.And(hash, if n == 0 then 0 else n - 1)
  }

  /** In a table the mask selects the remainder, so the bucket is in range. */
  lemma MaskedIsMod(hash: Hash64, n: nat)
    requires TableSize(n)
    ensures Masked(hash, n) == hash % n < n
  {
    Bits.MaskIsMod(hash, n);
  }

  /** On doubling, the entries of bucket b land in bucket b or in bucket b + n. */
  lemma DoublingSplits(hash: Hash64, n: nat)
    requires TableSize(n)
    ensures Masked(hash, 2 * n) == Masked(hash, n) || Masked(hash, 2 * n) == Masked(hash, n) + n
  {
    Bits.DoubleIsPow2(n);
    MaskedIsMod(hash, n);
    MaskedIsMod(hash, 2 * n);
    Bits.BucketSplits(hash, n);
  }

  class DickEntry {
    var next: DickEntry?
    const key: Bytes
    var value: Value

    constructor (key: Bytes, value: Value)
      ensures this.key == key && this.value == value && next == null
    {
      this.key := key;
      this.value := value;
      next := null;
    }
  }

  /** The nodes c, linked in this order from `head` to null, carry the entries es. */
  ghost predicate Linked(head: DickEntry?, c: seq<DickEntry>, es: Chain)
    reads c
  {
    && |c| == |es|
    && head == (if |c| == 0 then null else c[0])
    && (forall i :: 0 <= i < |c| ==> c[i].key == es[i].key && c[i].value == es[i].value)
    && (forall i {:trigger c[i].next} :: 0 <= i < |c| ==> c[i].next == if i + 1 < |c| then c[i + 1] else null)
  }

  class DickTable {
    var table: array<DickEntry?>
    var size: int
    var sizemask: nat
    var used: int
    ghost var chains: seq<seq<DickEntry>>
    ghost var nodes: set<DickEntry>  // every node ever linked here

    /** This table holds exactly the value t. */
    ghost predicate Holds(t: Table)
      reads this, table, nodes
    {
      && table.Length == |chains| == |t.buckets| == size
      && used == t.used
      && sizemask == (if size == 0 then 0 else size - 1)
      && (forall b, i :: 0 <= b < |chains| && 0 <= i < |chains[b]| ==> chains[b][i] in nodes)
      && forall b :: 0 <= b < |chains| ==> Linked(table[b], chains[b], t.buckets[b])
    }

    ghost predicate Has(n: DickEntry)
      reads this
    {
      exists b :: 0 <= b < |chains| && n in chains[b]
    }

    constructor (size: int)
      ensures fresh(table) && this.size == size && chains == seq(table.Length, _ => []) && nodes == {}
      ensures size >= 0 ==> Holds(Empty(size))
    {
      var buckets := new DickEntry?[if size > 0 then size else 0](_ => null);
      table := buckets;
      this.size := size;
      sizemask := if size > 0 then size - 1 else 0;
      used := 0;
      chains, nodes := seq(buckets.Length, _ => []), {};
    }

    /** Walk bucket b to the first entry with the key, remembering the entry before it. */
    method Find(b: nat, key: Bytes, ghost t: Table) returns (previous: DickEntry?, entry: DickEntry?)
      requires Holds(t) && b < table.Length
      ensures var p := Position(t.buckets[b], key);
              && entry == (if p < |chains[b]| then chains[b][p] else null)
              && previous == if p > 0 then chains[b][p - 1] else null
    {
      previous, entry := null, table[b];
      ghost var c, i := chains[b], 0;
      while entry != null
        invariant Linked(table[b], c, t.buckets[b])
        invariant 0 <= i <= |c|
        invariant entry == if i < |c| then c[i] else null
        invariant previous == if i > 0 then c[i - 1] else null
        invariant Position(t.buckets[b], key) == PositionFrom(t.buckets[b], key, i)
        decreases |c| - i
      {
        if entry.key == key { return; }
        previous, entry := entry, entry.next;
        i := i + 1;
      }
    }

    /** Link an entry that is in no chain of this table in front of bucket b. */
    method Link(b: nat, entry: DickEntry, ghost t: Table)
      requires Holds(t) && b < table.Length && !Has(entry)
      modifies this`used, this`chains, this`nodes, table, entry`next
      ensures chains == old(chains[b := [entry] + chains[b]]) && nodes == old(nodes) + {entry}
      ensures Holds(Table(t.buckets[b := [Entry(entry.key, entry.value)] + t.buckets[b]], t.used + 1))
    {
      ghost var cs := chains;
      assert forall x :: 0 <= x < |cs| ==> Linked(table[x], cs[x], t.buckets[x]) && entry !in cs[x];
      entry.next := table[b];
      table[b] := entry;
      used := used + 1;
      chains, nodes := cs[b := [entry] + cs[b]], nodes + {entry};
      forall x | 0 <= x < |chains| && x != b
        ensures Linked(table[x], chains[x], t.buckets[x])
      {
        assert old(Linked(table[x], chains[x], t.buckets[x]));
      }
      assert Linked(table[b], chains[b], [Entry(entry.key, entry.value)] + t.buckets[b]) by {
        assert old(Linked(table[b], chains[b], t.buckets[b]));
        forall i | 0 < i < |chains[b]|
          ensures chains[b][i] == cs[b][i - 1] && chains[b][i].next == old(cs[b][i - 1].next)
        {
          assert cs[b][i - 1] in cs[b];
        }
      }
    }

    /** Unlink entry p of bucket b, whose predecessor is `previous`. */
    method Unlink(b: nat, previous: DickEntry?, entry: DickEntry, ghost p: nat, ghost t: Table)
      requires Holds(t) && b < table.Length && p < |chains[b]| && entry == chains[b][p]
      requires previous == if p > 0 then chains[b][p - 1] else null
      requires p > 0 ==> OnlyAt(chains[b][p - 1], b, p - 1)
      modifies this`used, this`chains, table, if previous == null then {} else {previous}
      ensures chains == old(chains[b := chains[b][..p] + chains[b][p + 1..]])
      ensures Holds(Table(t.buckets[b := t.buckets[b][..p] + t.buckets[b][p + 1..]], t.used - 1))
    {
      if previous != null {
        UnlinkAfter(b, previous, entry, p, t);
      } else {
        assert chains[b][1..] == chains[b][..p] + chains[b][p + 1..];
        UnlinkFirst(b, entry, t);
        assert t.buckets[b][1..] == t.buckets[b][..p] + t.buckets[b][p + 1..];
      }
    }

    method UnlinkFirst(b: nat, entry: DickEntry, ghost t: Table)
      requires Holds(t) && b < table.Length && |chains[b]| > 0 && entry == chains[b][0]
      modifies this`used, this`chains, table
      ensures chains == old(chains[b := chains[b][1..]])
      ensures Holds(Table(t.buckets[b := t.buckets[b][1..]], t.used - 1))
    {
      assert forall x :: 0 <= x < |chains| ==> Linked(table[x], chains[x], t.buckets[x]);
      table[b] := entry.next;
      used := used - 1;
      chains := chains[b := chains[b][1..]];
      forall x | 0 <= x < |chains| && x != b
        ensures Linked(table[x], chains[x], t.buckets[x])
      {
        assert old(Linked(table[x], chains[x], t.buckets[x]));
      }
    }

    method UnlinkAfter(b: nat, previous: DickEntry, entry: DickEntry, ghost p: nat, ghost t: Table)
      requires Holds(t) && b < table.Length && 0 < p < |chains[b]| && entry == chains[b][p]
      requires previous == chains[b][p - 1] && OnlyAt(previous, b, p - 1)
      modifies this`used, this`chains, previous`next
      ensures chains == old(chains[b := chains[b][..p] + chains[b][p + 1..]])
      ensures Holds(Table(t.buckets[b := t.buckets[b][..p] + t.buckets[b][p + 1..]], t.used - 1))
    {
      ghost var c := chains[b];
      assert forall x :: 0 <= x < |chains| ==> Linked(table[x], chains[x], t.buckets[x]);
      previous.next := entry.next;
      used := used - 1;
      chains := chains[b := c[..p] + c[p + 1..]];
      forall x | 0 <= x < |chains| && x != b
        ensures Linked(table[x], chains[x], t.buckets[x])
      {
        assert old(Linked(table[x], chains[x], t.buckets[x]));
      }
      assert old(Linked(table[b], chains[b], t.buckets[b]));
      RelinkedChain(table[b], c, t.buckets[b], p);
    }

    /** A chain whose link p-1 skips node p. */
    static lemma RelinkedChain(head: DickEntry?, c: seq<DickEntry>, es: Chain, p: nat)
      requires |c| == |es| && 0 < p < |c| && head == c[0]
      requires forall i :: 0 <= i < |c| ==> c[i].key == es[i].key && c[i].value == es[i].value
      requires forall i {:trigger c[i].next} :: 0 <= i < |c| ==>
                 c[i].next == var j := if i == p - 1 then p + 1 else i + 1; if j < |c| then c[j] else null
      ensures Linked(head, c[..p] + c[p + 1..], es[..p] + es[p + 1..])
    {
      var c' := c[..p] + c[p + 1..];
      forall i | 0 <= i < |c'|
        ensures c'[i].next == if i + 1 < |c'| then c'[i + 1] else null
      {
        assert c'[i] == c[if i < p then i else i + 1];
      }
    }

    /** The node that carries a key, by the value t this table holds. */
    ghost function NodeOf(h: Placement, t: Table, key: Bytes): DickEntry?
      requires Holds(t)
      reads this, table, nodes
    {
      if |chains| == 0 then null
      else
        var b := Slot(h, |chains|, key);
        var p := Position(t.buckets[b], key);
        if p < |chains[b]| then chains[b][p] else null
    }

    lemma NodeOfGet(h: Placement, t: Table, key: Bytes)
      requires Holds(t)
      ensures var n := NodeOf(h, t, key);
              && (n == null <==> TableGet(h, t, key) == None)
              && (n != null ==> n.key == key && TableGet(h, t, key) == Some(n.value) && Has(n) && n in nodes)
    {
      if |chains| > 0 {
        var b := Slot(h, |chains|, key);
        assert Linked(table[b], chains[b], t.buckets[b]);
      }
    }

    ghost predicate OnlyAt(n: DickEntry, b: nat, p: nat)
      reads this
    {
      forall x, i :: 0 <= x < |chains| && 0 <= i < |chains[x]| && chains[x][i] == n ==> x == b && i == p
    }

    /** Keys are unique and placed by their slot, so no node is linked twice. */
    lemma LinkedOnce(h: Placement, t: Table, b: nat, p: nat)
      requires Holds(t) && TableInv(h, t) && b < |chains| && p < |chains[b]|
      ensures OnlyAt(chains[b][p], b, p)
    {
      forall x, i | 0 <= x < |chains| && 0 <= i < |chains[x]| && chains[x][i] == chains[b][p]
        ensures x == b && i == p
      {
        assert Linked(table[x], chains[x], t.buckets[x]) && Linked(table[b], chains[b], t.buckets[b]);
        assert ChainOk(h, t.buckets[x], x, |t.buckets|) && ChainOk(h, t.buckets[b], b, |t.buckets|);
        assert t.buckets[x][i].key == t.buckets[b][p].key;
      }
    }

    /** A node linked here carries a key of this table. */
    lemma LinkedKey(h: Placement, t: Table, b: nat, p: nat)
      requires Holds(t) && TableInv(h, t) && b < |chains| && p < |chains[b]|
      ensures TableGet(h, t, chains[b][p].key) == Some(chains[b][p].value)
    {
      assert Linked(table[b], chains[b], t.buckets[b]) && ChainOk(h, t.buckets[b], b, |t.buckets|);
      ChainGetAt(t.buckets[b], p);
    }
  }

  class SubDICK {
    const hasher: Hasher
    ghost const place: Placement  // the bucket of a key: its hash under the size mask
    var hashTable0: DickTable
    var hashTable1: DickTable
    var rehashidx: int
    ghost var d: Dict
    ghost var Repr: set<object>

    ghost predicate PlacedByMask() {
      forall k: Bytes, n: nat {:trigger Masked(hasher(k), n)} :: n > 0 ==> Slot(place, n, k) == Masked(hasher(k), n)
    }

    /** The heap structure holds exactly the value d. */
    ghost predicate Wired()
      reads this, Repr
    {
      && this in Repr && hashTable0 in Repr && hashTable1 in Repr
      && hashTable0.table in Repr && hashTable1.table in Repr
      && hashTable0.nodes <= Repr && hashTable1.nodes <= Repr
      && hashTable0 != hashTable1 && hashTable0.table != hashTable1.table
      && hashTable0.Holds(d.t0) && hashTable1.Holds(d.t1)
      && rehashidx == d.rehashidx
      && PlacedByMask()
    }

    ghost predicate Valid()
      reads this, Repr
    {
      Wired() && Inv(place, d)
    }

    constructor (hasher: Hasher)
      ensures Valid() && fresh(Repr) && d == NEW && this.hasher == hasher
    {
      this.hasher := hasher;
      place := (k: Bytes, n: nat) => Masked(hasher(k), n);
      var t0 := new DickTable(0);
      var t1 := new DickTable(0);
      hashTable0, hashTable1 := t0, t1;
      rehashidx := -1;
      d := NEW;
      Repr := {this, t0, t1, t0.table, t1.table};
      new;
      assert hashTable0.Holds(d.t0) && hashTable1.Holds(d.t1);
    }

    /** The bucket of a key in one of the tables. */
    method Index(hashTable: DickTable, key: Bytes) returns (index: nat)
      requires Wired() && (hashTable == hashTable0 || hashTable == hashTable1) && hashTable.table.Length > 0
      ensures index == Slot(place, hashTable.table.Length, key)
    {
      index := Bits.And(hasher(key), hashTable.sizemask);
      assert index == Masked(hasher(key), hashTable.table.Length);
    }

    predicate IsRehashing()
      reads this
    {
      rehashidx != -1
    }

    method Expand(newSize: Int64)
      requires Wired() && newSize <= LARGEST_POWER
      modifies this, hashTable0, hashTable1
      ensures Wired() && fresh(Repr - old(Repr))
      ensures d == DictSpec.Expand(old(d), newSize)
      ensures hashTable0 == old(hashTable0) && hashTable1 == old(hashTable1)
    {
      if IsRehashing() || hashTable0.used > newSize { return; }
      var nextSize := Compute(newSize);
      if hashTable0.used >= nextSize { return; }
      var newTable := new DickTable(nextSize);
      if hashTable0.table.Length == 0 {
        InstallFirst(newTable);
      } else {
        InstallSecond(newTable);
      }
    }

    method InstallFirst(newTable: DickTable)
      requires Wired() && |d.t0.buckets| == 0 && newTable !in Repr && newTable.table !in Repr
      requires newTable.size >= 0 && newTable.Holds(Empty(newTable.size)) && newTable.nodes == {}
      modifies this`d, this`Repr, hashTable0
      ensures Wired() && Repr == old(Repr) + {newTable.table}
      ensures d == old(d).(t0 := Empty(newTable.size))
    {
      Repr := Repr + {newTable.table};
      Overwrite(hashTable0, newTable);
      assert hashTable1.Holds(d.t1);
      d := d.(t0 := Empty(newTable.size));
    }

    method InstallSecond(newTable: DickTable)
      requires Wired() && newTable !in Repr && newTable.table !in Repr
      requires newTable.size >= 0 && newTable.Holds(Empty(newTable.size)) && newTable.nodes == {}
      modifies this`d, this`Repr, this`rehashidx, hashTable1
      ensures Wired() && Repr == old(Repr) + {newTable.table}
      ensures d == old(d).(t1 := Empty(newTable.size), rehashidx := 0)
    {
      Repr := Repr + {newTable.table};
      Overwrite(hashTable1, newTable);
      assert hashTable0.Holds(d.t0);
      rehashidx := 0;
      d := d.(t1 := Empty(newTable.size), rehashidx := 0);
    }

    /** `*target = *source` for a fresh table. */
    static method Overwrite(target: DickTable, source: DickTable)
      requires source.size >= 0 && source.Holds(Empty(source.size)) && target != source
      modifies target
      ensures target.table == source.table && target.nodes == source.nodes
      ensures target.Holds(Empty(source.size))
    {
      target.table, target.size, target.sizemask, target.used :=
        source.table, source.size, source.sizemask, source.used;
      target.chains, target.nodes := source.chains, source.nodes;
      assert forall b :: 0 <= b < |source.chains| ==>
               Linked(source.table[b], source.chains[b], Empty(source.size).buckets[b]);
    }

    method ExpandIfNeeded()
      requires Valid() && 2 * d.t0.used <= LARGEST_POWER
      modifies this, hashTable0, hashTable1
      ensures Wired() && fresh(Repr - old(Repr))
      ensures d == DictSpec.ExpandIfNeeded(old(d))
      ensures hashTable0 == old(hashTable0) && hashTable1 == old(hashTable1)
    {
      if IsRehashing() { return; }
      if hashTable0.table.Length == 0 {
        Expand(INITIAL_SIZE);
      } else if hashTable0.used >= hashTable0.size {
        var newSize := hashTable0.used * 2;
        Expand(newSize);
      }
    }

    /** Part-way through moving bucket b: the nodes of c from i on are still linked to each other,
        carry es and belong to no other chain; the doubled table holds cur. */
    static ghost predicate Moving(main: DickTable, second: DickTable, b: nat, t0: Table,
                                  c: seq<DickEntry>, es: Chain, i: nat, cur: Table)
      reads main, main.table, main.nodes, second, second.table, second.nodes, c
    {
      && LinkedFrom(c, es, i)
      && second.Holds(cur)
      && main.table != second.table && main.table.Length == |main.chains| == |t0.buckets|
      && (forall j, k :: 0 <= j < k < |c| ==> c[j] != c[k])
      && (forall j :: i <= j < |c| ==> !second.Has(c[j]))
      && Others(main, b, t0, c)
    }

    static ghost predicate LinkedFrom(c: seq<DickEntry>, es: Chain, i: nat)
      reads c
    {
      && |c| == |es| && i <= |c|
      && (forall j :: i <= j < |c| ==> c[j].key == es[j].key && c[j].value == es[j].value)
      && (forall j {:trigger c[j].next} :: i <= j < |c| ==> c[j].next == if j + 1 < |c| then c[j + 1] else null)
    }

    /** Every other bucket of the main table is intact and shares no node with c. */
    static ghost predicate Others(main: DickTable, b: nat, t0: Table, c: seq<DickEntry>)
      requires main.table.Length == |main.chains| == |t0.buckets|
      reads main, main.table, main.nodes
    {
      forall x :: 0 <= x < |main.chains| && x != b ==>
        && (forall i :: 0 <= i < |main.chains[x]| ==> main.chains[x][i] in main.nodes && main.chains[x][i] !in c)
        && Linked(main.table[x], main.chains[x], t0.buckets[x])
    }

    /** Relink entry i of the chain into bucket `index`; the next one to move is what it pointed to. */
    static method RelinkEntry(main: DickTable, second: DickTable, entry: DickEntry, index: nat,
                              ghost b: nat, ghost t0: Table, ghost c: seq<DickEntry>, ghost es: Chain,
                              ghost i: nat, ghost cur: Table)
      returns (nextEntry: DickEntry?)
      requires main != second && Moving(main, second, b, t0, c, es, i, cur)
      requires i < |c| && c[i] == entry && index < |cur.buckets|
      modifies main`used, second`used, second`chains, second`nodes, second.table, entry`next
      ensures main.used == old(main.used) - 1
      ensures second.nodes == old(second.nodes) + {entry}
      ensures nextEntry == if i + 1 < |c| then c[i + 1] else null
      ensures Moving(main, second, b, t0, c, es, i + 1,
                     Table(cur.buckets[index := [es[i]] + cur.buckets[index]], cur.used + 1))
    {
      nextEntry := entry.next;
      second.Link(index, entry, cur);
      main.used := main.used - 1;
      assert es[i] == Entry(entry.key, entry.value);
      assert forall j :: i < j < |c| ==> c[j] != entry;
      assert Others(main, b, t0, c) by {
        forall x | 0 <= x < |main.chains| && x != b
          ensures Linked(main.table[x], main.chains[x], t0.buckets[x])
        {
          assert old(Linked(main.table[x], main.chains[x], t0.buckets[x]));
        }
      }
    }

    /** The same, into the bucket of the entry's hash. */
    method MoveEntry(main: DickTable, second: DickTable, entry: DickEntry, ghost b: nat, ghost t0: Table,
                     ghost c: seq<DickEntry>, ghost es: Chain, ghost i: nat, ghost cur: Table)
      returns (nextEntry: DickEntry?)
      requires PlacedByMask() && main != second && Moving(main, second, b, t0, c, es, i, cur)
      requires i < |c| && c[i] == entry && |cur.buckets| > 0
      modifies main`used, second`used, second`chains, second`nodes, second.table, entry`next
      ensures main.used == old(main.used) - 1
      ensures second.nodes == old(second.nodes) + {entry}
      ensures nextEntry == if i + 1 < |c| then c[i + 1] else null
      ensures Moving(main, second, b, t0, c, es, i + 1, Push(place, cur, es[i]))
    {
      var index := Bits.And(hasher(entry.key), second.sizemask);
      SlotOf(entry.key, |cur.buckets|);
      assert Push(place, cur, es[i]) == Table(cur.buckets[index := [es[i]] + cur.buckets[index]], cur.used + 1);
      nextEntry := RelinkEntry(main, second, entry, index, b, t0, c, es, i, cur);
    }

    lemma SlotOf(key: Bytes, n: nat)
      requires PlacedByMask() && n > 0
      ensures Bits.And(hasher(key), n - 1) == Slot(place, n, key)
    {
      assert Masked(hasher(key), n) == Slot(place, n, key);
    }

    /** The entries under the cursor are distinct and linked nowhere else. */
    lemma StartMoving()
      requires Wired() && InRehash(place, d) && d.rehashidx < |d.t0.buckets|
      ensures MovingStart()
    {
      BucketApart(hashTable0.chains[d.rehashidx]);
      assert Linked(hashTable0.table[d.rehashidx], hashTable0.chains[d.rehashidx], d.t0.buckets[d.rehashidx]);
    }

    lemma BucketApart(c: seq<DickEntry>)
      requires Wired() && InRehash(place, d) && d.rehashidx < |d.t0.buckets| && c == hashTable0.chains[d.rehashidx]
      ensures forall i, j :: 0 <= i < j < |c| ==> c[i] != c[j]
      ensures forall i :: 0 <= i < |c| ==> !hashTable1.Has(c[i])
      ensures forall i, x :: 0 <= i < |c| && 0 <= x < |hashTable0.chains| && x != d.rehashidx ==>
                c[i] !in hashTable0.chains[x]
    {
      var b := d.rehashidx;
      forall i | 0 <= i < |c|
        ensures hashTable0.OnlyAt(c[i], b, i) && !hashTable1.Has(c[i])
      {
        hashTable0.LinkedOnce(place, d.t0, b, i);
        hashTable0.LinkedKey(place, d.t0, b, i);
        if hashTable1.Has(c[i]) {
          var x :| 0 <= x < |hashTable1.chains| && c[i] in hashTable1.chains[x];
          var p :| 0 <= p < |hashTable1.chains[x]| && hashTable1.chains[x][p] == c[i];
          hashTable1.LinkedKey(place, d.t1, x, p);
          assert false;
        }
      }
    }

    /** Relink the entries of a chain of the main table into the doubled table, one by one. */
    method MoveAll(main: DickTable, second: DickTable, first: DickEntry?,
                   ghost b: nat, ghost t0: Table, ghost t1: Table, ghost c: seq<DickEntry>, ghost es: Chain)
      requires PlacedByMask() && main != second && |t1.buckets| > 0
      requires Moving(main, second, b, t0, c, es, 0, t1)
      requires first == (if |c| == 0 then null else c[0]) && forall i :: 0 <= i < |c| ==> c[i] in main.nodes
      modifies main`used, second`used, second`chains, second`nodes, second.table, main.nodes`next
      ensures Moving(main, second, b, t0, c, es, |c|, MoveFrom(place, es, 0, t1))
      ensures main.used == old(main.used) - |es| && second.nodes <= old(second.nodes) + main.nodes
    {
      hide DictSpec.Push, DictSpec.Slot, PlacedByMask;
      ghost var cur, i := t1, 0;
      var entry := first;
      while entry != null
        invariant 0 <= i <= |c| == |es|
        invariant entry == if i < |c| then c[i] else null
        invariant Moving(main, second, b, t0, c, es, i, cur)
        invariant |cur.buckets| == |t1.buckets|
        invariant MoveFrom(place, es, i, cur) == MoveFrom(place, es, 0, t1)
        invariant second.nodes <= old(second.nodes) + main.nodes
        invariant main.used == old(main.used) - i
        decreases |c| - i
      {
        entry := MoveEntry(main, second, entry, b, t0, c, es, i, cur);
        cur, i := Push(place, cur, es[i]), i + 1;
      }
    }

    /** Move the chain of bucket b and empty the bucket. */
    method MoveEntries(b: nat, ghost t0: Table, ghost t1: Table)
      requires PlacedByMask() && b < |t0.buckets| && |t1.buckets| > 0
      requires hashTable0 != hashTable1 && hashTable0.Holds(t0)
      requires Moving(hashTable0, hashTable1, b, t0, hashTable0.chains[b], t0.buckets[b], 0, t1)
      modifies hashTable0`used, hashTable0`chains, hashTable0.table, hashTable0.nodes`next
      modifies hashTable1`used, hashTable1`chains, hashTable1`nodes, hashTable1.table
      ensures hashTable0.Holds(Table(t0.buckets[b := []], t0.used - |t0.buckets[b]|))
      ensures hashTable1.Holds(MoveFrom(place, t0.buckets[b], 0, t1))
      ensures hashTable1.nodes <= old(hashTable1.nodes) + hashTable0.nodes
    {
      ghost var c, es := hashTable0.chains[b], t0.buckets[b];
      MoveAll(hashTable0, hashTable1, hashTable0.table[b], b, t0, t1, c, es);
      EmptyBucket(hashTable0, b, t0, c);
    }

    ghost predicate MovingStart()
      requires Wired()
      reads this, Repr
    {
      && 0 <= d.rehashidx < |d.t0.buckets| && |d.t1.buckets| > 0
      && Moving(hashTable0, hashTable1, d.rehashidx, d.t0, hashTable0.chains[d.rehashidx],
                d.t0.buckets[d.rehashidx], 0, d.t1)
    }

    /** Drop the link to the moved chain. */
    static method EmptyBucket(main: DickTable, b: nat, ghost t0: Table, ghost c: seq<DickEntry>)
      requires b < main.table.Length == |main.chains| == |t0.buckets| == main.size && Others(main, b, t0, c)
      requires main.sizemask == main.size - 1
      modifies main`chains, main.table
      ensures main.Holds(Table(t0.buckets[b := []], main.used))
    {
      main.table[b] := null;
      main.chains := main.chains[b := []];
      forall x | 0 <= x < |main.chains| && x != b
        ensures Linked(main.table[x], main.chains[x], t0.buckets[x])
      {
        assert old(Linked(main.table[x], main.chains[x], t0.buckets[x]));
      }
    }

    ghost predicate Midway()
      reads this, Repr
    {
      Wired() && InRehash(place, d)
    }

    /** Step over the empty bucket under the cursor. */
    method Advance()
      requires Midway() && d.t0.used != 0 && d.t0.buckets[d.rehashidx] == []
      modifies this`rehashidx, this`d
      ensures Midway() && d == old(d).(rehashidx := old(d).rehashidx + 1)
    {
      SkipKeeps(place, d, d, 0);
      rehashidx := rehashidx + 1;
      d := d.(rehashidx := rehashidx);
    }

    /** Skip empty buckets until a filled one is under the cursor or the visits are used up. */
    method SkipEmpty(visits: nat, ghost n: nat) returns (emptyVisits: nat)
      requires Midway() && d.t0.used != 0 && visits > 0 && n > 0
      modifies this`rehashidx, this`d
      ensures Midway() && d.t0 == old(d).t0
      ensures DictSpec.Rehash(place, d, n, emptyVisits) == DictSpec.Rehash(place, old(d), n, visits)
      ensures emptyVisits <= visits
      ensures emptyVisits > 0 ==> d.t0.buckets[d.rehashidx] != []
    {
      hide DictSpec.Rehash, DictSpec.TableInv, DictSpec.Apart;
      emptyVisits := visits;
      while hashTable0.table.Length == 0 || hashTable0.table[rehashidx] == null
        invariant Midway() && d.t0 == old(d).t0 && 0 < emptyVisits <= visits
        invariant DictSpec.Rehash(place, d, n, emptyVisits) == DictSpec.Rehash(place, old(d), n, visits)
        decreases emptyVisits
      {
        UnderCursor();
        RehashSkip(place, d, n, emptyVisits);
        Advance();
        emptyVisits := emptyVisits - 1;
        if emptyVisits == 0 { return; }
      }
      UnderCursor();
    }

    method MoveCursorBucket()
      requires Wired() && MovingStart()
      modifies Repr
      ensures Wired() && Repr == old(Repr) && d == MoveBucket(place, old(d))
    {
      ghost var d' := MoveBucket(place, d);
      var b: nat := rehashidx;
      MoveEntries(b, d.t0, d.t1);
      rehashidx := b + 1;
      d := d';
    }

    /** The doubled table becomes the main one. */
    method SwapTables()
      requires Midway()
      modifies this
      ensures Wired() && fresh(Repr - old(Repr)) && d == Finish(old(d))
    {
      var empty := new DickTable(0);
      hashTable0 := hashTable1;
      hashTable1 := empty;
      rehashidx := -1;
      d := Finish(d);
      Repr := Repr + {empty, empty.table};
    }

    /** One round of `rehash`: find a filled bucket and move it, or run out of visits. */
    method MoveOne(visits: nat, ghost n: nat) returns (emptyVisits: nat)
      requires Midway() && d.t0.used != 0 && visits > 0 && n > 0
      modifies Repr
      ensures Midway() && Repr == old(Repr)
      ensures emptyVisits > 0 ==>
                DictSpec.Rehash(place, d, n - 1, emptyVisits) == DictSpec.Rehash(place, old(d), n, visits)
      ensures emptyVisits == 0 ==> d.t0.used != 0 && d == DictSpec.Rehash(place, old(d), n, visits)
    {
      emptyVisits := SkipEmpty(visits, n);
      if emptyVisits == 0 {
        RehashEnd(place, d, n, 0);
        return;
      }
      RehashMove(place, d, n, emptyVisits);
      StartMoving();
      MoveBucketKeeps(place, d);
      hide DictSpec.Rehash, DictSpec.MoveBucket, DictSpec.InRehash, Moving;
      MoveCursorBucket();
    }

    /** The loop of `rehash`. */
    method MoveBuckets(n: nat) returns (ghost left: nat, ghost emptyVisits: nat)
      requires Midway()
      modifies Repr
      ensures Midway() && Repr == old(Repr)
      ensures DictSpec.Rehash(place, d, left, emptyVisits) == DictSpec.Rehash(place, old(d), n, n * 10)
      ensures d.t0.used == 0 || left == 0 || emptyVisits == 0
    {
      hide DictSpec.Rehash, DictSpec.MoveBucket, DictSpec.TableInv, DictSpec.Apart;
      var visits: nat := n * 10;
      var rounds: nat := n;
      while rounds > 0 && hashTable0.used != 0
        invariant Midway() && Repr == old(Repr) && (rounds > 0 ==> visits > 0)
        invariant DictSpec.Rehash(place, d, rounds, visits) == DictSpec.Rehash(place, old(d), n, n * 10)
        decreases rounds
      {
        visits := MoveOne(visits, rounds);
        if visits == 0 {
          RehashEnd(place, d, rounds, 0);
          return rounds, 0;
        }
        rounds := rounds - 1;
      }
      left, emptyVisits := rounds, visits;
    }

    /** `rehash`: move up to n buckets, giving up at the 10n-th empty one. */
    method Rehash(n: nat)
      requires Wired() && Shape(place, d)
      modifies Repr
      ensures Wired() && fresh(Repr - old(Repr))
      ensures d == if old(d).Rehashing() then DictSpec.Rehash(place, old(d), n, n * 10) else old(d)
    {
      if !IsRehashing() { return; }
      ghost var left, emptyVisits := MoveBuckets(n);
      RehashEnd(place, d, left, emptyVisits);
      hide DictSpec.Rehash, DictSpec.InRehash;
      if hashTable0.used == 0 {
        SwapTables();
      }
    }

    /** A main bucket is nil exactly when its chain is empty. */
    lemma UnderCursor()
      requires Wired() && InRehash(place, d) && d.t0.used != 0
      ensures hashTable0.table[rehashidx] == null <==> d.t0.buckets[rehashidx] == []
    {
      assert Linked(hashTable0.table[rehashidx], hashTable0.chains[rehashidx], d.t0.buckets[rehashidx]);
    }

    /** The entry that carries a key: from the main table, else from the one being filled. */
    ghost function EntryOf(key: Bytes): DickEntry?
      requires Wired()
      reads this, Repr
    {
      var n := hashTable0.NodeOf(place, d.t0, key);
      if n != null then n else if d.Rehashing() then hashTable1.NodeOf(place, d.t1, key) else null
    }

    lemma EntryOfLookup(key: Bytes)
      requires Wired()
      ensures var e := EntryOf(key);
              && (e == null <==> Lookup(place, d, key) == None)
              && (e != null ==> e.key == key && Lookup(place, d, key) == Some(e.value))
    {
      hashTable0.NodeOfGet(place, d.t0, key);
      hashTable1.NodeOfGet(place, d.t1, key);
    }

    /** Search one table. */
    method Search(hashTable: DickTable, key: Bytes, ghost t: Table)
      returns (index: nat, previous: DickEntry?, entry: DickEntry?)
      requires Wired() && hashTable.table.Length > 0 && hashTable.Holds(t)
      requires hashTable == hashTable0 || hashTable == hashTable1
      ensures index == Slot(place, |t.buckets|, key) && index < hashTable.table.Length
      ensures entry == hashTable.NodeOf(place, t, key)
      ensures var p := Position(t.buckets[index], key);
              && entry == (if p < |hashTable.chains[index]| then hashTable.chains[index][p] else null)
              && previous == if p > 0 then hashTable.chains[index][p - 1] else null
    {
      index := Index(hashTable, key);
      previous, entry := hashTable.Find(index, key, t);
    }

    method Get(key: Bytes) returns (entry: DickEntry?)
      requires Valid()
      ensures entry == EntryOf(key)
    {
      hashTable0.NodeOfGet(place, d.t0, key);
      hashTable1.NodeOfGet(place, d.t1, key);
      if hashTable0.used == 0 && hashTable1.used == 0 {
        UnusedIsEmpty(place, d.t0);
        UnusedIsEmpty(place, d.t1);
        return null;
      }
      hide DictSpec.Inv, DictSpec.TableInv, DictSpec.TableGet;
      var ind := 0;
      while ind < 2
        invariant 0 <= ind <= 2
        invariant ind >= 1 ==> hashTable0.NodeOf(place, d.t0, key) == null
        invariant ind == 2 && d.Rehashing() ==> hashTable1.NodeOf(place, d.t1, key) == null
        decreases 2 - ind
      {
        var hashTable := if ind == 0 then hashTable0 else hashTable1;
        if !(hashTable.table.Length == 0 || (ind == 1 && !IsRehashing())) {
          var index, previous;
          index, previous, entry := Search(hashTable, key, if ind == 0 then d.t0 else d.t1);
          if entry != null { return; }
        }
        ind := ind + 1;
      }
      entry := null;
    }

    /** The search of `keyIndex`: -1 if the key is present, else its bucket in the last table searched. */
    method FreeSlot(key: Bytes) returns (index: int)
      requires Wired() && |d.t0.buckets| > 0 && (d.Rehashing() ==> |d.t1.buckets| > 0)
      ensures index == -1 <==> Lookup(place, d, key).Some?
      ensures index != -1 ==> index == Slot(place, if d.Rehashing() then |d.t1.buckets| else |d.t0.buckets|, key)
    {
      EntryOfLookup(key);
      hide DictSpec.Lookup;
      var i := 0;
      while i <= 1
        invariant 0 <= i <= 1
        invariant i == 1 ==> d.Rehashing() && hashTable0.NodeOf(place, d.t0, key) == null
        decreases 1 - i
      {
        var hashTable := if i == 0 then hashTable0 else hashTable1;
        var previous, entry;
        index, previous, entry := Search(hashTable, key, if i == 0 then d.t0 else d.t1);
        if entry != null { return -1; }
        if i == 1 || !IsRehashing() { return; }
        i := i + 1;
      }
    }

    /** The bucket a new entry for the key goes to, or -1 if the key is present. */
    method KeyIndex(key: Bytes) returns (index: int)
      requires Valid() && 2 * d.t0.used <= LARGEST_POWER
      modifies Repr
      ensures Wired() && fresh(Repr - old(Repr)) && d == DictSpec.ExpandIfNeeded(old(d))
      ensures index == -1 <==> Lookup(place, d, key).Some?
      ensures index != -1 ==> |d.t0.buckets| > 0 && (d.Rehashing() ==> |d.t1.buckets| > 0)
      ensures index != -1 ==> index == Slot(place, if d.Rehashing() then |d.t1.buckets| else |d.t0.buckets|, key)
    {
      ExpandKeeps(place, d);
      ExpandIfNeeded();
      index := FreeSlot(key);
    }

    /** `add`: link a new entry for an absent key, an error for a present one. The bucket computed
        before the rehash step is still the right one after it, even if the tables were swapped. */
    method Add(key: Bytes, value: Value) returns (ok: bool)
      requires Valid() && 2 * d.t0.used <= LARGEST_POWER
      modifies Repr
      ensures Wired() && fresh(Repr - old(Repr))
      ensures ok <==> Lookup(place, old(d), key) == None
      ensures d == if ok then DictSpec.Add(place, old(d), key, value) else DictSpec.ExpandIfNeeded(old(d))
    {
      AddUnfolds(place, d, key, value);
      hide DictSpec.TableInv, DictSpec.Apart, DictSpec.Lookup, DictSpec.Add, DictSpec.ExpandIfNeeded, DictSpec.Insert;
      hide DictSpec.Rehash, DickTable.Holds, SlotReady, RehashStep;
      var index := KeyIndex(key);
      if index == -1 { return false; }
      SlotStays(place, d, key, index);
      AddAt(index, key, value);
      ok := true;
    }

    /** Bucket `index` is where an absent key belongs once a rehash step has been made. */
    static ghost predicate SlotReady(h: Placement, d: Dict, key: Bytes, index: nat)
      requires Shape(h, d)
    {
      var s := RehashStep(h, d);
      var target := if s.Rehashing() then s.t1.buckets else s.t0.buckets;
      Lookup(h, s, key) == None && |target| > 0 && index == Slot(h, |target|, key)
    }

    /** The expansion that `keyIndex` starts with, and the rest of `add`. */
    static lemma AddUnfolds(h: Placement, d: Dict, key: Bytes, value: Value)
      requires Inv(h, d)
      ensures var e := DictSpec.ExpandIfNeeded(d);
              && Shape(h, e) && |e.t0.buckets| > 0 && Lookup(h, e, key) == Lookup(h, d, key)
              && DictSpec.Add(h, d, key, value) == Insert(h, RehashStep(h, e), Entry(key, value))
    {
      ExpandKeeps(h, d);
      RehashStepKeeps(h, DictSpec.ExpandIfNeeded(d));
    }

    /** The bucket chosen right after the expansion is still the right one after the rehash step. */
    static lemma SlotStays(h: Placement, e: Dict, key: Bytes, index: nat)
      requires Shape(h, e) && |e.t0.buckets| > 0 && Lookup(h, e, key) == None
      requires index == Slot(h, if e.Rehashing() then |e.t1.buckets| else |e.t0.buckets|, key)
      ensures SlotReady(h, e, key, index)
    {
      RehashStepKeeps(h, e);
      if e.Rehashing() { TargetSizeStable(h, e); }
    }

    /** The rest of `add`, for the bucket `keyIndex` chose. */
    method AddAt(index: nat, key: Bytes, value: Value)
      requires Wired() && Shape(place, d) && |d.t0.buckets| > 0 && SlotReady(place, d, key, index)
      modifies Repr
      ensures Wired() && fresh(Repr - old(Repr))
      ensures d == Insert(place, RehashStep(place, old(d)), Entry(key, value))
    {
      hide DictSpec.TableInv, DictSpec.Apart, DictSpec.Lookup, DictSpec.Rehash, DictSpec.InRehash, DictSpec.Insert;
      var hashTable := hashTable0;
      if IsRehashing() {
        Rehash(1);
        hashTable := hashTable0;
        if IsRehashing() { hashTable := hashTable1; }
      }
      LinkNew(hashTable, index, key, value);
    }

    /** Link a new entry unless the bucket already has the key. */
    method LinkNew(hashTable: DickTable, index: nat, key: Bytes, value: Value)
      requires Wired() && hashTable == (if d.Rehashing() then hashTable1 else hashTable0)
      requires Lookup(place, d, key) == None && hashTable.table.Length > 0
      requires index == Slot(place, hashTable.table.Length, key)
      modifies Repr
      ensures Wired() && fresh(Repr - old(Repr))
      ensures d == Insert(place, old(d), Entry(key, value))
    {
      hashTable0.NodeOfGet(place, d.t0, key);
      hashTable1.NodeOfGet(place, d.t1, key);
      var previous, entry := hashTable.Find(index, key, if d.Rehashing() then d.t1 else d.t0);
      if entry == null {
        hide DickTable.Holds, DickTable.NodeOf, DictSpec.Lookup;
        entry := new DickEntry(key, value);
        if hashTable == hashTable0 { LinkMain(index, entry); } else { LinkSecond(index, entry); }
      }
    }

    method LinkMain(index: nat, entry: DickEntry)
      requires Wired() && !d.Rehashing() && entry !in Repr
      requires index < hashTable0.table.Length && index == Slot(place, hashTable0.table.Length, entry.key)
      modifies this`d, this`Repr, hashTable0, hashTable0.table, entry
      ensures Wired() && Repr == old(Repr) + {entry}
      ensures d == Insert(place, old(d), Entry(entry.key, old(entry.value)))
    {
      LinkFresh(hashTable0, index, entry, d.t0, hashTable1, d.t1);
      Repr := Repr + {entry};
      d := Insert(place, d, Entry(entry.key, entry.value));
    }

    method LinkSecond(index: nat, entry: DickEntry)
      requires Wired() && d.Rehashing() && entry !in Repr
      requires index < hashTable1.table.Length && index == Slot(place, hashTable1.table.Length, entry.key)
      modifies this`d, this`Repr, hashTable1, hashTable1.table, entry
      ensures Wired() && Repr == old(Repr) + {entry}
      ensures d == Insert(place, old(d), Entry(entry.key, old(entry.value)))
    {
      LinkFresh(hashTable1, index, entry, d.t1, hashTable0, d.t0);
      Repr := Repr + {entry};
      d := Insert(place, d, Entry(entry.key, entry.value));
    }

    static method LinkFresh(hashTable: DickTable, index: nat, entry: DickEntry, ghost t: Table,
                            ghost other: DickTable, ghost o: Table)
      requires hashTable.Holds(t) && other.Holds(o) && hashTable != other && hashTable.table != other.table
      requires index < hashTable.table.Length && entry !in hashTable.nodes && entry !in other.nodes
      modifies hashTable`used, hashTable`chains, hashTable`nodes, hashTable.table, entry`next
      ensures other.Holds(o) && hashTable.nodes == old(hashTable.nodes) + {entry}
      ensures hashTable.Holds(Table(t.buckets[index := [Entry(entry.key, entry.value)] + t.buckets[index]], t.used + 1))
    {
      assert !hashTable.Has(entry);
      hashTable.Link(index, entry, t);
    }

    /** No node is linked in both tables. */
    lemma Exclusive(n: DickEntry)
      requires Wired() && Shape(place, d) && hashTable0.Has(n)
      ensures !hashTable1.Has(n)
    {
      var b :| 0 <= b < |hashTable0.chains| && n in hashTable0.chains[b];
      var p :| 0 <= p < |hashTable0.chains[b]| && hashTable0.chains[b][p] == n;
      hashTable0.LinkedKey(place, d.t0, b, p);
      if hashTable1.Has(n) {
        var x :| 0 <= x < |hashTable1.chains| && n in hashTable1.chains[x];
        var q :| 0 <= q < |hashTable1.chains[x]| && hashTable1.chains[x][q] == n;
        hashTable1.LinkedKey(place, d.t1, x, q);
        assert false;
      }
    }

    /** `del`: one rehash step, then unlink the key from the first table that holds it. */
    method Del(key: Bytes) returns (entry: DickEntry?)
      requires Wired() && Shape(place, d)
      modifies Repr
      ensures Wired() && fresh(Repr - old(Repr))
      ensures d == DictSpec.Del(place, old(d), key).0
      ensures entry != null <==> DictSpec.Del(place, old(d), key).1
    {
      if hashTable0.used == 0 && hashTable1.used == 0 { return null; }
      entry := StepAndUnlink(key);
    }

    /** `del` of a dictionary in use, which has buckets to search. */
    method StepAndUnlink(key: Bytes) returns (entry: DickEntry?)
      requires Wired() && Shape(place, d) && |d.t0.buckets| > 0
      modifies Repr
      ensures Wired() && fresh(Repr - old(Repr))
      ensures d == DictSpec.Unlink(place, RehashStep(place, old(d)), key)
      ensures entry != null <==> Lookup(place, RehashStep(place, old(d)), key).Some?
    {
      RehashStepKeeps(place, d);
      hide DictSpec.TableInv, DictSpec.Apart, DictSpec.Lookup, DictSpec.Rehash, DictSpec.Unlink, DickTable.Holds;
      if IsRehashing() { Rehash(1); }
      entry := UnlinkKey(key);
    }

    /** The search of `del`: the first table that holds the key (2 if none does), its bucket, the
        entry and the one before it. */
    method Locate(key: Bytes) returns (i: nat, index: nat, previous: DickEntry?, entry: DickEntry?)
      requires Wired() && |d.t0.buckets| > 0 && (d.Rehashing() ==> |d.t1.buckets| > 0)
      ensures i <= 2 && (entry == null <==> i == 2)
      ensures i == 0 <==> TableGet(place, d.t0, key).Some?
      ensures i == 1 <==> TableGet(place, d.t0, key).None? && d.Rehashing() && TableGet(place, d.t1, key).Some?
      ensures i == 0 ==>
                && index == Slot(place, hashTable0.table.Length, key)
                && Found(hashTable0, d.t0, index, previous, entry, key)
      ensures i == 1 ==>
                && index == Slot(place, hashTable1.table.Length, key)
                && Found(hashTable1, d.t1, index, previous, entry, key)
    {
      hashTable0.NodeOfGet(place, d.t0, key);
      hashTable1.NodeOfGet(place, d.t1, key);
      hide DictSpec.TableGet, DickTable.NodeOf;
      i, index, previous := 0, 0, null;
      while i < 2
        invariant Wired() && 0 <= i <= 2
        invariant i >= 1 ==> hashTable0.NodeOf(place, d.t0, key) == null
        invariant i == 2 && d.Rehashing() ==> hashTable1.NodeOf(place, d.t1, key) == null
        decreases 2 - i
      {
        if !(i == 1 && !IsRehashing()) {
          var hashTable := if i == 0 then hashTable0 else hashTable1;
          index, previous, entry := Search(hashTable, key, if i == 0 then d.t0 else d.t1);
          if entry != null { return; }
        }
        i := i + 1;
      }
      entry := null;
    }

    method UnlinkKey(key: Bytes) returns (entry: DickEntry?)
      requires Wired() && Shape(place, d) && |d.t0.buckets| > 0
      modifies Repr
      ensures Wired() && fresh(Repr - old(Repr))
      ensures d == DictSpec.Unlink(place, old(d), key)
      ensures entry != null <==> Lookup(place, old(d), key).Some?
    {
      AllDetachable();
      hide DictSpec.TableInv, DictSpec.Apart, DickTable.Holds, DictSpec.TableGet, Detachable, Found;
      var i, index, previous;
      i, index, previous, entry := Locate(key);
      if i == 0 {
        UnlinkMain(index, previous, entry, key);
      } else if i == 1 {
        UnlinkSecond(index, previous, entry, key);
      }
    }

    /** Every node linked in a table is linked there once and not in the other one. */
    static ghost predicate Detachable(hashTable: DickTable, other: DickTable)
      reads hashTable, other
    {
      forall b, p :: 0 <= b < |hashTable.chains| && 0 <= p < |hashTable.chains[b]| ==>
        hashTable.OnlyAt(hashTable.chains[b][p], b, p) && !other.Has(hashTable.chains[b][p])
    }

    lemma AllDetachable()
      requires Wired() && Shape(place, d)
      ensures Detachable(hashTable0, hashTable1) && Detachable(hashTable1, hashTable0)
    {
      forall b, p | 0 <= b < |hashTable0.chains| && 0 <= p < |hashTable0.chains[b]|
        ensures hashTable0.OnlyAt(hashTable0.chains[b][p], b, p) && !hashTable1.Has(hashTable0.chains[b][p])
      {
        hashTable0.LinkedOnce(place, d.t0, b, p);
        Exclusive(hashTable0.chains[b][p]);
      }
      forall b, p | 0 <= b < |hashTable1.chains| && 0 <= p < |hashTable1.chains[b]|
        ensures hashTable1.OnlyAt(hashTable1.chains[b][p], b, p) && !hashTable0.Has(hashTable1.chains[b][p])
      {
        hashTable1.LinkedOnce(place, d.t1, b, p);
        if hashTable0.Has(hashTable1.chains[b][p]) { Exclusive(hashTable1.chains[b][p]); }
      }
    }

    method UnlinkMain(index: nat, previous: DickEntry?, entry: DickEntry, ghost key: Bytes)
      requires Wired() && Detachable(hashTable0, hashTable1)
      requires index < hashTable0.table.Length && index == Slot(place, hashTable0.table.Length, key)
      requires Found(hashTable0, d.t0, index, previous, entry, key)
      modifies Repr
      ensures Wired() && Repr == old(Repr)
      ensures d == old(d).(t0 := TableRemove(place, old(d).t0, key))
    {
      ghost var p := Position(d.t0.buckets[index], key);
      assert previous != null ==> hashTable0.OnlyAt(previous, index, p - 1) && !hashTable1.Has(previous);
      assert TableRemove(place, d.t0, key) ==
             Table(d.t0.buckets[index := d.t0.buckets[index][..p] + d.t0.buckets[index][p + 1..]], d.t0.used - 1);
      hide Detachable, DictSpec.TableRemove, DickTable.OnlyAt, DickTable.Has;
      UnlinkApart(hashTable0, index, previous, entry, p, d.t0, hashTable1, d.t1);
      d := d.(t0 := TableRemove(place, d.t0, key));
    }

    method UnlinkSecond(index: nat, previous: DickEntry?, entry: DickEntry, ghost key: Bytes)
      requires Wired() && Detachable(hashTable1, hashTable0)
      requires index < hashTable1.table.Length && index == Slot(place, hashTable1.table.Length, key)
      requires Found(hashTable1, d.t1, index, previous, entry, key)
      modifies Repr
      ensures Wired() && Repr == old(Repr)
      ensures d == old(d).(t1 := TableRemove(place, old(d).t1, key))
    {
      ghost var p := Position(d.t1.buckets[index], key);
      assert previous != null ==> hashTable1.OnlyAt(previous, index, p - 1) && !hashTable0.Has(previous);
      assert TableRemove(place, d.t1, key) ==
             Table(d.t1.buckets[index := d.t1.buckets[index][..p] + d.t1.buckets[index][p + 1..]], d.t1.used - 1);
      hide Detachable, DictSpec.TableRemove, DickTable.OnlyAt, DickTable.Has;
      UnlinkApart(hashTable1, index, previous, entry, p, d.t1, hashTable0, d.t0);
      d := d.(t1 := TableRemove(place, d.t1, key));
    }

    /** entry is the node carrying the key in a bucket and previous the node before it. */
    static ghost predicate Found(hashTable: DickTable, t: Table, index: nat,
                                 previous: DickEntry?, entry: DickEntry, key: Bytes)
      reads hashTable
    {
      && index < |hashTable.chains| && index < |t.buckets|
      && var p := Position(t.buckets[index], key);
         && p < |hashTable.chains[index]| && entry == hashTable.chains[index][p]
         && previous == if p > 0 then hashTable.chains[index][p - 1] else null
    }

    /** Unlinking in one table leaves the other as it is. */
    static method UnlinkApart(hashTable: DickTable, index: nat, previous: DickEntry?, entry: DickEntry,
                              ghost p: nat, ghost t: Table, ghost other: DickTable, ghost o: Table)
      requires hashTable.Holds(t) && other.Holds(o) && hashTable != other && hashTable.table != other.table
      requires index < hashTable.table.Length && p < |hashTable.chains[index]| && entry == hashTable.chains[index][p]
      requires previous == if p > 0 then hashTable.chains[index][p - 1] else null
      requires previous != null ==> hashTable.OnlyAt(previous, index, p - 1) && !other.Has(previous)
      modifies hashTable`used, hashTable`chains, hashTable.table, if previous == null then {} else {previous}
      ensures other.Holds(o)
      ensures hashTable.Holds(Table(t.buckets[index := t.buckets[index][..p] + t.buckets[index][p + 1..]], t.used - 1))
    {
      hashTable.Unlink(index, previous, entry, p, t);
      forall x | 0 <= x < |other.chains|
        ensures Linked(other.table[x], other.chains[x], o.buckets[x])
      {
        assert old(Linked(other.table[x], other.chains[x], o.buckets[x]));
        assert previous != null ==> previous !in other.chains[x];
      }
    }

    /** `entry.value = value` on the entry that `get` found. */
    method Store(entry: DickEntry, value: Value, ghost key: Bytes)
      requires Wired() && Shape(place, d) && EntryOf(key) == entry
      modifies this`d, entry`value
      ensures Wired() && Repr == old(Repr)
      ensures d == DictSpec.Assign(place, old(d), key, value)
    {
      StoreTarget(key);
      ghost var main := hashTable0.NodeOf(place, d.t0, key) != null;
      StoreIn(entry, value, key, main, DictSpec.Assign(place, d, key, value));
    }

    method StoreIn(entry: DickEntry, value: Value, ghost key: Bytes, ghost main: bool, ghost d': Dict)
      requires Wired() && Detachable(hashTable0, hashTable1) && Detachable(hashTable1, hashTable0)
      requires main ==> entry == hashTable0.NodeOf(place, d.t0, key)
                        && |d.t0.buckets| > 0 && d' == d.(t0 := TableAssign(place, d.t0, key, value))
      requires !main ==> entry == hashTable1.NodeOf(place, d.t1, key)
                         && |d.t1.buckets| > 0 && d' == d.(t1 := TableAssign(place, d.t1, key, value))
      modifies this`d, entry`value
      ensures Wired() && Repr == old(Repr) && d == d'
    {
      hide DictSpec.TableAssign, DickTable.Holds, DickTable.NodeOf, Detachable;
      StoreApart(if main then hashTable0 else hashTable1, entry, value, if main then d.t0 else d.t1,
                 if main then hashTable1 else hashTable0, if main then d.t1 else d.t0, place, key);
      assert hashTable0.Holds(d'.t0) && hashTable1.Holds(d'.t1) by {
        if main { assert hashTable1.Holds(d.t1); } else { assert hashTable0.Holds(d.t0); }
      }
      d := d';
    }

    /** The table whose entry `get` returns is the one `Assign` updates. */
    lemma StoreTarget(key: Bytes)
      requires Wired() && Shape(place, d) && EntryOf(key) != null
      ensures Detachable(hashTable0, hashTable1) && Detachable(hashTable1, hashTable0)
      ensures Lookup(place, d, key).Some?
      ensures hashTable0.NodeOf(place, d.t0, key) != null <==> TableGet(place, d.t0, key).Some?
      ensures hashTable0.NodeOf(place, d.t0, key) == null ==> EntryOf(key) == hashTable1.NodeOf(place, d.t1, key)
      ensures hashTable0.NodeOf(place, d.t0, key) != null ==> EntryOf(key) == hashTable0.NodeOf(place, d.t0, key)
    {
      EntryOfLookup(key);
      hashTable0.NodeOfGet(place, d.t0, key);
      hashTable1.NodeOfGet(place, d.t1, key);
      AllDetachable();
    }

    /** Overwriting a value in one table leaves the other as it is. */
    static method StoreApart(ghost hashTable: DickTable, entry: DickEntry, value: Value, ghost t: Table,
                             ghost other: DickTable, ghost o: Table, ghost h: Placement, ghost key: Bytes)
      requires hashTable.Holds(t) && other.Holds(o)
      requires entry == hashTable.NodeOf(h, t, key) && Detachable(hashTable, other)
      modifies entry`value
      ensures |t.buckets| > 0 && hashTable.Holds(TableAssign(h, t, key, value)) && other.Holds(o)
    {
      ghost var b := Slot(h, |t.buckets|, key);
      ghost var p := Position(t.buckets[b], key);
      assert entry == hashTable.chains[b][p] && hashTable.OnlyAt(entry, b, p);
      assert Linked(hashTable.table[b], hashTable.chains[b], t.buckets[b]);
      assert forall x :: 0 <= x < |hashTable.chains| && x != b ==> entry !in hashTable.chains[x];
      entry.value := value;
      ghost var t' := TableAssign(h, t, key, value);
      forall x | 0 <= x < |hashTable.chains|
        ensures Linked(hashTable.table[x], hashTable.chains[x], t'.buckets[x])
      {
        assert old(Linked(hashTable.table[x], hashTable.chains[x], t.buckets[x]));
      }
      forall x | 0 <= x < |other.chains|
        ensures Linked(other.table[x], other.chains[x], o.buckets[x])
      {
        assert old(Linked(other.table[x], other.chains[x], o.buckets[x]));
        assert entry !in other.chains[x];
      }
    }
  }
}
