/** The two-table dictionary of one shard on values (database/dick.go): chains of entries, the
    incremental rehash, and the specification of every operation the heap code in `Dick` refines. */
module DictSpec {
  import opened Wrappers
  import opened NextPower
  import Bits

  /** Which of n buckets a key belongs to, fixed for the whole run. Everything here holds for every
      placement; `Dick` instantiates it with the hash under the size mask. */
  type Placement = (Bytes, nat) -> nat

  datatype Entry = Entry(key: Bytes, value: Value)
  type Chain = seq<Entry>
  datatype Table = Table(buckets: seq<Chain>, used: int)

  /** `rehashidx` is -1 when no rehash is pending, else the next main bucket to move. */
  datatype Dict = Dict(t0: Table, t1: Table, rehashidx: int) {
    predicate Rehashing() { rehashidx != -1 }
    function Used(): int { t0.used + t1.used }
  }

  const VISITS: nat := 10  // empty buckets one rehash step may inspect

  function Empty(size: nat): Table {
    Table(seq(size, _ => []), 0)
  }

  const NEW := Dict(Table([], 0), Table([], 0), -1)

  // ---------- chains ----------

  /** Position of the first entry with key k from index i on, or the length of the chain. */
  function PositionFrom(c: Chain, k: Bytes, i: nat): (p: nat)
    requires i <= |c|
    ensures i <= p <= |c|
    ensures p < |c| ==> c[p].key == k
    ensures forall j :: i <= j < p ==> c[j].key != k
    decreases |c| - i
  {
    if i == |c| || c[i].key == k then i else PositionFrom(c, k, i + 1)
  }

  function Position(c: Chain, k: Bytes): (p: nat)
    ensures p <= |c|
  {
    PositionFrom(c, k, 0)
  }

  function ChainGet(c: Chain, k: Bytes): Option<Value> {
    var i := Position(c, k);
    if i < |c| then Some(c[i].value) else None
  }

  function ChainAssign(c: Chain, k: Bytes, v: Value): Chain {
    var i := Position(c, k);
    if i < |c| then c[i := Entry(k, v)] else c
  }

  function ChainRemove(c: Chain, k: Bytes): Chain {
    var i := Position(c, k);
    if i < |c| then c[..i] + c[i + 1..] else c
  }

  // ---------- tables ----------

  function Slot(h: Placement, n: nat, k: Bytes): (b: nat)
    requires n > 0
    ensures b < n
  {
    if h(k, n) < n then h(k, n) else 0
  }

  function TableGet(h: Placement, t: Table, k: Bytes): Option<Value> {
    if |t.buckets| == 0 then None else ChainGet(t.buckets[Slot(h, |t.buckets|, k)], k)
  }

  function Push(h: Placement, t: Table, e: Entry): Table
    requires |t.buckets| > 0
  {
    var b := Slot(h, |t.buckets|, e.key);
    Table(t.buckets[b := [e] + t.buckets[b]], t.used + 1)
  }

  function TableAssign(h: Placement, t: Table, k: Bytes, v: Value): Table
    requires |t.buckets| > 0
  {
    var b := Slot(h, |t.buckets|, k);
    Table(t.buckets[b := ChainAssign(t.buckets[b], k, v)], t.used)
  }

  function TableRemove(h: Placement, t: Table, k: Bytes): Table
    requires |t.buckets| > 0
  {
    var b := Slot(h, |t.buckets|, k);
    Table(t.buckets[b := ChainRemove(t.buckets[b], k)], t.used - 1)
  }

  /** Pushing the entries of a chain from index i on, one after the other. */
  function MoveFrom(h: Placement, c: Chain, i: nat, t: Table): (r: Table)
    requires |t.buckets| > 0 && i <= |c|
    ensures |r.buckets| == |t.buckets|
    decreases |c| - i
  {
    if i == |c| then t else MoveFrom(h, c, i + 1, Push(h, t, c[i]))
  }

  // ---------- dictionary operations ----------

  function Lookup(h: Placement, d: Dict, k: Bytes): Option<Value> {
    match TableGet(h, d.t0, k)
    case Some(v) => Some(v)
    case None => if d.Rehashing() then TableGet(h, d.t1, k) else None
  }

  /** `expand`: the first table, or a second one to rehash into. */
  function Expand(d: Dict, newSize: int): Dict {
    var n := Rounded(newSize);
    if d.Rehashing() || d.t0.used > newSize || d.t0.used >= n then d
    else if |d.t0.buckets| == 0 then d.(t0 := Empty(n))
    else d.(t1 := Empty(n), rehashidx := 0)
  }

  function ExpandIfNeeded(d: Dict): Dict {
    if d.Rehashing() then d
    else if |d.t0.buckets| == 0 then Expand(d, INITIAL_SIZE)
    else if d.t0.used >= |d.t0.buckets| then Expand(d, d.t0.used * 2)
    else d
  }

  function Finish(d: Dict): Dict {
    Dict(d.t1, Table([], 0), -1)
  }

  /** Move the bucket under the cursor into the doubled table. */
  function MoveBucket(h: Placement, d: Dict): Dict
    requires 0 <= d.rehashidx < |d.t0.buckets| && |d.t1.buckets| > 0
  {
    var c := d.t0.buckets[d.rehashidx];
    Dict(Table(d.t0.buckets[d.rehashidx := []], d.t0.used - |c|), MoveFrom(h, c, 0, d.t1), d.rehashidx + 1)
  }

  /** `rehash` during a pending rehash: move up to n buckets, give up at the `visits`-th empty one. */
  function Rehash(h: Placement, d: Dict, n: nat, visits: nat): Dict
    requires d.rehashidx >= 0 && |d.t1.buckets| > 0
    decreases n, visits
  {
    if d.t0.used == 0 then Finish(d)
    else if n == 0 || visits == 0 || d.rehashidx >= |d.t0.buckets| then d
    else if d.t0.buckets[d.rehashidx] == [] then Rehash(h, d.(rehashidx := d.rehashidx + 1), n, visits - 1)
    else Rehash(h, MoveBucket(h, d), n - 1, visits)
  }

  lemma RehashMove(h: Placement, d: Dict, n: nat, visits: nat)
    requires 0 <= d.rehashidx < |d.t0.buckets| && |d.t1.buckets| > 0
    requires d.t0.used != 0 && n > 0 && visits > 0 && d.t0.buckets[d.rehashidx] != []
    ensures Rehash(h, d, n, visits) == Rehash(h, MoveBucket(h, d), n - 1, visits)
  {
  }

  lemma RehashSkip(h: Placement, d: Dict, n: nat, visits: nat)
    requires 0 <= d.rehashidx < |d.t0.buckets| && |d.t1.buckets| > 0
    requires d.t0.used != 0 && n > 0 && visits > 0 && d.t0.buckets[d.rehashidx] == []
    ensures Rehash(h, d, n, visits) == Rehash(h, d.(rehashidx := d.rehashidx + 1), n, visits - 1)
  {
  }

  lemma RehashEnd(h: Placement, d: Dict, n: nat, visits: nat)
    requires d.rehashidx >= 0 && |d.t1.buckets| > 0
    ensures d.t0.used == 0 ==> Rehash(h, d, n, visits) == Finish(d)
    ensures d.t0.used != 0 && (n == 0 || visits == 0) ==> Rehash(h, d, n, visits) == d
  {
  }

  function RehashStep(h: Placement, d: Dict): Dict
    requires Shape(h, d)
  {
    if d.Rehashing() then Rehash(h, d, 1, VISITS) else d
  }

  /** New entries go to the doubled table while a rehash is pending. */
  function Insert(h: Placement, d: Dict, e: Entry): Dict
    requires |if d.Rehashing() then d.t1.buckets else d.t0.buckets| > 0
  {
    if d.Rehashing() then d.(t1 := Push(h, d.t1, e)) else d.(t0 := Push(h, d.t0, e))
  }

  /** `add` of a key that is in neither table. */
  function Add(h: Placement, d: Dict, k: Bytes, v: Value): Dict
    requires Inv(h, d)
  {
    ExpandKeeps(h, d);
    RehashStepKeeps(h, ExpandIfNeeded(d));
    Insert(h, RehashStep(h, ExpandIfNeeded(d)), Entry(k, v))
  }

  /** Overwriting the value of the entry that `get` finds. */
  function Assign(h: Placement, d: Dict, k: Bytes, v: Value): Dict
    requires Lookup(h, d, k).Some?
  {
    if TableGet(h, d.t0, k).Some? then d.(t0 := TableAssign(h, d.t0, k, v))
    else d.(t1 := TableAssign(h, d.t1, k, v))
  }

  function Set(h: Placement, d: Dict, k: Bytes, v: Value): Dict
    requires Inv(h, d)
  {
    if Lookup(h, d, k).Some? then Assign(h, d, k, v) else Add(h, d, k, v)
  }

  /** Unlinking from the first table that holds k, if any. */
  function Unlink(h: Placement, d: Dict, k: Bytes): Dict {
    if TableGet(h, d.t0, k).Some? then d.(t0 := TableRemove(h, d.t0, k))
    else if d.Rehashing() && TableGet(h, d.t1, k).Some? then d.(t1 := TableRemove(h, d.t1, k))
    else d
  }

  /** `del`: one rehash step when a rehash is pending, then unlink; the flag says whether an entry
      was unlinked. */
  function Del(h: Placement, d: Dict, k: Bytes): (Dict, bool)
    requires Shape(h, d)
  {
    if d.t0.used == 0 && d.t1.used == 0 then (d, false)
    else
      RehashStepKeeps(h, d);
      var s := RehashStep(h, d);
      (Unlink(h, s, k), Lookup(h, s, k).Some?)
  }

  // ---------- invariants ----------

  ghost predicate Distinct(c: Chain) {
    forall i, j :: 0 <= i < j < |c| ==> c[i].key != c[j].key
  }

  ghost predicate ChainOk(h: Placement, c: Chain, b: nat, n: nat)
    requires n > 0
  {
    && Distinct(c)
    && forall i :: 0 <= i < |c| ==> Slot(h, n, c[i].key) == b
  }

  function CountUpTo(buckets: seq<Chain>, n: nat): nat
    requires n <= |buckets|
  {
    if n == 0 then 0 else CountUpTo(buckets, n - 1) + |buckets[n - 1]|
  }

  function Count(buckets: seq<Chain>): nat {
    CountUpTo(buckets, |buckets|)
  }

  /** Every entry sits in the bucket of its hash, no key repeats, `used` counts the entries. */
  ghost predicate TableInv(h: Placement, t: Table) {
    && t.used == Count(t.buckets)
    && forall b :: 0 <= b < |t.buckets| ==> ChainOk(h, t.buckets[b], b, |t.buckets|)
  }

  /** No key is in both tables. */
  ghost predicate Apart(h: Placement, t0: Table, t1: Table) {
    forall k :: TableGet(h, t0, k).None? || TableGet(h, t1, k).None?
  }

  /** A pending rehash; the cursor may have reached the end only if the main table is drained. */
  ghost predicate InRehash(h: Placement, d: Dict) {
    && d.rehashidx >= 0
    && TableInv(h, d.t0) && TableInv(h, d.t1)
    && TableSize(|d.t0.buckets|) && |d.t1.buckets| == 2 * |d.t0.buckets|
    && (forall b :: 0 <= b < d.rehashidx && b < |d.t0.buckets| ==> d.t0.buckets[b] == [])
    && Apart(h, d.t0, d.t1)
    && (d.t0.used != 0 ==> d.rehashidx < |d.t0.buckets|)
  }

  ghost predicate Idle(h: Placement, d: Dict) {
    && d.rehashidx == -1
    && TableInv(h, d.t0) && d.t1 == Table([], 0)
    && (|d.t0.buckets| > 0 ==> TableSize(|d.t0.buckets|))
  }

  ghost predicate Shape(h: Placement, d: Dict) {
    Idle(h, d) || (InRehash(h, d) && d.rehashidx < |d.t0.buckets|)
  }

  /** The two-sided bound that links the cursor to the number of entries. */
  ghost predicate Growth(d: Dict) {
    var size := |d.t0.buckets|;
    if d.Rehashing() then size + 2 - d.rehashidx <= d.Used() <= size + d.rehashidx
    else d.t0.used <= size
  }

  ghost predicate Inv(h: Placement, d: Dict) {
    Shape(h, d) && Growth(d)
  }

  /** d stores exactly the map m, one entry a key. */
  ghost predicate Represents(h: Placement, d: Dict, m: map<Bytes, Value>) {
    && (forall k :: Lookup(h, d, k) == MapGet(m, k))
    && d.Used() == |m|
  }

  ghost predicate SameContents(h: Placement, a: Dict, b: Dict) {
    && a.Used() == b.Used()
    && forall k :: Lookup(h, a, k) == Lookup(h, b, k)
  }

  // ---------- counting ----------

  lemma {:induction false} CountUpdate(s: seq<Chain>, b: nat, c: Chain, n: nat)
    requires b < |s| && n <= |s|
    ensures CountUpTo(s[b := c], n) == CountUpTo(s, n) + if b < n then |c| - |s[b]| else 0
  {
    if n > 0 { CountUpdate(s, b, c, n - 1); }
  }

  lemma {:induction false} CountAtLeast(s: seq<Chain>, b: nat, n: nat)
    requires b < n <= |s|
    ensures |s[b]| <= CountUpTo(s, n)
  {
    if b < n - 1 { CountAtLeast(s, b, n - 1); }
  }

  lemma {:induction false} CountPositive(s: seq<Chain>, n: nat) returns (b: nat)
    requires n <= |s| && CountUpTo(s, n) > 0
    ensures b < n && s[b] != []
  {
    if s[n - 1] != [] {
      b := n - 1;
    } else {
      b := CountPositive(s, n - 1);
    }
  }

  lemma {:induction false} CountEmpty(s: seq<Chain>, n: nat)
    requires n <= |s| && forall b :: 0 <= b < |s| ==> s[b] == []
    ensures CountUpTo(s, n) == 0
  {
    if n > 0 { CountEmpty(s, n - 1); }
  }

  lemma UnusedIsEmpty(h: Placement, t: Table)
    requires TableInv(h, t) && t.used == 0
    ensures forall b :: 0 <= b < |t.buckets| ==> t.buckets[b] == []
    ensures forall k :: TableGet(h, t, k) == None
  {
    forall b | 0 <= b < |t.buckets| ensures t.buckets[b] == [] { CountAtLeast(t.buckets, b, |t.buckets|); }
  }

  // ---------- table lemmas ----------

  lemma ChainGetAt(c: Chain, i: nat)
    requires Distinct(c) && i < |c|
    ensures Position(c, c[i].key) == i
  {
  }

  /** Replacing the chain of one bucket. */
  lemma ReplaceChain(h: Placement, t: Table, b: nat, c: Chain)
    requires TableInv(h, t) && b < |t.buckets| && ChainOk(h, c, b, |t.buckets|)
    ensures var r := Table(t.buckets[b := c], t.used - |t.buckets[b]| + |c|);
            && TableInv(h, r)
            && forall k :: TableGet(h, r, k) ==
                           if Slot(h, |t.buckets|, k) == b then ChainGet(c, k) else TableGet(h, t, k)
  {
    CountUpdate(t.buckets, b, c, |t.buckets|);
  }

  lemma PushPosition(c: Chain, e: Entry)
    ensures forall k :: ChainGet([e] + c, k) == if k == e.key then Some(e.value) else ChainGet(c, k)
  {
    forall k
      ensures ChainGet([e] + c, k) == if k == e.key then Some(e.value) else ChainGet(c, k)
    {
      var p, q := Position(c, k), Position([e] + c, k);
      assert p < |c| ==> ([e] + c)[p + 1] == c[p];
      assert 0 < q < |c| + 1 ==> ([e] + c)[q] == c[q - 1];
    }
  }

  lemma PushGet(h: Placement, t: Table, e: Entry)
    requires |t.buckets| > 0 && TableInv(h, t) && TableGet(h, t, e.key) == None
    ensures TableInv(h, Push(h, t, e))
    ensures forall k :: TableGet(h, Push(h, t, e), k) == if k == e.key then Some(e.value) else TableGet(h, t, k)
  {
    var b := Slot(h, |t.buckets|, e.key);
    var c := [e] + t.buckets[b];
    PushPosition(t.buckets[b], e);
    assert ChainOk(h, t.buckets[b], b, |t.buckets|);
    ReplaceChain(h, t, b, c);
  }

  lemma AssignGet(h: Placement, t: Table, key: Bytes, v: Value)
    requires TableInv(h, t) && TableGet(h, t, key).Some?
    ensures TableInv(h, TableAssign(h, t, key, v))
    ensures forall k :: TableGet(h, TableAssign(h, t, key, v), k) == if k == key then Some(v) else TableGet(h, t, k)
  {
    var b := Slot(h, |t.buckets|, key);
    assert ChainOk(h, t.buckets[b], b, |t.buckets|);
    ReplaceChain(h, t, b, ChainAssign(t.buckets[b], key, v));
    forall k
      ensures ChainGet(ChainAssign(t.buckets[b], key, v), k) == if k == key then Some(v) else ChainGet(t.buckets[b], k)
    {
      ChainAssignGet(t.buckets[b], key, v, k);
    }
  }

  lemma ChainAssignGet(c: Chain, key: Bytes, v: Value, k: Bytes)
    requires Position(c, key) < |c|
    ensures ChainGet(ChainAssign(c, key, v), k) == if k == key then Some(v) else ChainGet(c, k)
  {
    var c' := ChainAssign(c, key, v);
    var i, j := Position(c, k), Position(c', k);
    assert i < |c| ==> c'[i].key == k;
    assert j < |c| ==> c[j].key == k;
    assert i == j;
  }

  lemma RemoveGet(h: Placement, t: Table, key: Bytes)
    requires TableInv(h, t) && TableGet(h, t, key).Some?
    ensures TableInv(h, TableRemove(h, t, key))
    ensures forall k :: TableGet(h, TableRemove(h, t, key), k) == if k == key then None else TableGet(h, t, k)
  {
    var b := Slot(h, |t.buckets|, key);
    assert ChainOk(h, t.buckets[b], b, |t.buckets|);
    ReplaceChain(h, t, b, ChainRemove(t.buckets[b], key));
    forall k
      ensures ChainGet(ChainRemove(t.buckets[b], key), k) == if k == key then None else ChainGet(t.buckets[b], k)
    {
      ChainRemoveGet(t.buckets[b], key, k);
    }
  }

  /** Dropping position i of a chain with distinct keys loses exactly that entry. */
  lemma DropGet(c: Chain, i: nat, c': Chain, k: Bytes)
    requires Distinct(c) && i < |c| && c' == c[..i] + c[i + 1..]
    ensures Distinct(c')
    ensures ChainGet(c', k) == if k == c[i].key then None else ChainGet(c, k)
  {
    assert forall p :: 0 <= p < |c'| ==> c'[p] == c[if p < i then p else p + 1];
    var j, j' := Position(c, k), Position(c', k);
    if j < |c| && j != i { assert c'[if j < i then j else j - 1] == c[j]; }
    if k != c[i].key && j' < |c'| {
      ChainGetAt(c, if j' < i then j' else j' + 1);
    }
  }

  lemma ChainRemoveGet(c: Chain, key: Bytes, k: Bytes)
    requires Distinct(c) && Position(c, key) < |c|
    ensures ChainGet(ChainRemove(c, key), k) == if k == key then None else ChainGet(c, k)
  {
    DropGet(c, Position(c, key), ChainRemove(c, key), k);
  }

  /** Moving the tail of a chain into a table adds exactly the entries of that tail. */
  lemma {:induction false} MoveFromGet(h: Placement, c: Chain, i: nat, t: Table)
    requires |t.buckets| > 0 && TableInv(h, t) && Distinct(c) && i <= |c|
    requires forall j :: i <= j < |c| ==> TableGet(h, t, c[j].key) == None
    ensures var r := MoveFrom(h, c, i, t);
            && TableInv(h, r) && r.used == t.used + |c| - i
            && forall k :: TableGet(h, r, k) ==
                           var p := PositionFrom(c, k, i);
                           if p < |c| then Some(c[p].value) else TableGet(h, t, k)
    decreases |c| - i
  {
    if i < |c| {
      PushGet(h, t, c[i]);
      MoveFromGet(h, c, i + 1, Push(h, t, c[i]));
    }
  }

  // ---------- steps ----------

  lemma ExpandKeeps(h: Placement, d: Dict)
    requires Inv(h, d)
    ensures var e := ExpandIfNeeded(d);
            && Shape(h, e) && |e.t0.buckets| > 0
            && SameContents(h, e, d)
            && (|d.t0.buckets| > 0 ==> e.t0 == d.t0)
            && (|d.t0.buckets| == 0 ==> |e.t0.buckets| == 128)
            && (d.Rehashing() || d.t0.used < |d.t0.buckets| ==> e == d)
            && (!d.Rehashing() && d.t0.used >= |d.t0.buckets| > 0 ==> e.rehashidx == 0)
  {
    InitialIsPow2();
    if !d.Rehashing() && |d.t0.buckets| == 0 {
      RoundedFixed(INITIAL_SIZE);
      EmptyTable(h, INITIAL_SIZE);
    } else if !d.Rehashing() && d.t0.used >= |d.t0.buckets| {
      Bits.DoubleIsPow2(|d.t0.buckets|);
      RoundedFixed(2 * |d.t0.buckets|);
      StartKeeps(h, d);
    }
  }

  lemma EmptyTable(h: Placement, n: nat)
    ensures TableInv(h, Empty(n)) && forall k :: TableGet(h, Empty(n), k) == None
  {
    CountEmpty(Empty(n).buckets, n);
  }

  lemma StartKeeps(h: Placement, d: Dict)
    requires Idle(h, d) && |d.t0.buckets| > 0
    ensures var e := d.(t1 := Empty(2 * |d.t0.buckets|), rehashidx := 0);
            Shape(h, e) && SameContents(h, e, d)
  {
    EmptyTable(h, 2 * |d.t0.buckets|);
  }

  /** d is reached from o within the same rehash. */
  ghost predicate Ahead(h: Placement, o: Dict, d: Dict, steps: nat) {
    InRehash(h, d) && SameContents(h, d, o) && |d.t0.buckets| == |o.t0.buckets| && o.rehashidx + steps <= d.rehashidx
  }

  /** s is what a rehash call may leave: well shaped, same contents, and either the cursor moved on
      by at least `steps` or the doubled table took over. */
  ghost predicate Later(h: Placement, o: Dict, s: Dict, steps: nat) {
    && Shape(h, s) && SameContents(h, s, o)
    && (if s.Rehashing() then |s.t0.buckets| == |o.t0.buckets| && o.rehashidx + steps <= s.rehashidx
        else |s.t0.buckets| == 2 * |o.t0.buckets|)
  }

  /** Rehashing any number of buckets with any allowance of empty visits keeps contents and counts;
      the cursor advances and stays inside the main table, or the doubled table takes over. */
  lemma {:induction false} RehashKeeps(h: Placement, o: Dict, d: Dict, n: nat, visits: nat, steps: nat)
    requires Ahead(h, o, d, steps)
    ensures Later(h, o, Rehash(h, d, n, visits), if n > 0 && visits > 0 && steps == 0 then 1 else steps)
    decreases n, visits
  {
    if d.t0.used == 0 {
      FinishKeeps(h, o, d, steps);
    } else if n == 0 || visits == 0 {
    } else if d.t0.buckets[d.rehashidx] == [] {
      SkipKeeps(h, o, d, steps);
      RehashKeeps(h, o, d.(rehashidx := d.rehashidx + 1), n, visits - 1, steps + 1);
    } else {
      MoveBucketKeeps(h, d);
      MovedAhead(h, o, d, steps);
      RehashKeeps(h, o, MoveBucket(h, d), n - 1, visits, steps + 1);
    }
  }

  lemma MovedAhead(h: Placement, o: Dict, d: Dict, steps: nat)
    requires Ahead(h, o, d, steps) && d.rehashidx < |d.t0.buckets|
    requires var m := MoveBucket(h, d); InRehash(h, m) && SameContents(h, m, d)
    ensures Ahead(h, o, MoveBucket(h, d), steps + 1)
  {
    var m := MoveBucket(h, d);
    forall k ensures Lookup(h, m, k) == Lookup(h, o, k) {
      assert Lookup(h, m, k) == Lookup(h, d, k);
    }
  }

  /** While an entry is left in the main table, stepping over an empty bucket stays inside it. */
  lemma SkipKeeps(h: Placement, o: Dict, d: Dict, steps: nat)
    requires Ahead(h, o, d, steps) && d.t0.used != 0 && d.t0.buckets[d.rehashidx] == []
    ensures Ahead(h, o, d.(rehashidx := d.rehashidx + 1), steps + 1)
  {
    var live := CountPositive(d.t0.buckets, |d.t0.buckets|);
    assert d.rehashidx < live;
    forall k ensures Lookup(h, d.(rehashidx := d.rehashidx + 1), k) == Lookup(h, o, k) {
      assert Lookup(h, d, k) == Lookup(h, o, k);
    }
  }

  lemma RehashStepKeeps(h: Placement, d: Dict)
    requires Shape(h, d)
    ensures var s := RehashStep(h, d);
            && Shape(h, s) && |s.t0.buckets| >= |d.t0.buckets|
            && SameContents(h, s, d)
            && (d.Rehashing() && s.Rehashing() ==>
                  |s.t0.buckets| == |d.t0.buckets| && d.rehashidx < s.rehashidx)
            && (d.Rehashing() && !s.Rehashing() ==> |s.t0.buckets| == 2 * |d.t0.buckets|)
            && (!d.Rehashing() ==> s == d)
  {
    if d.Rehashing() { RehashKeeps(h, d, d, 1, VISITS, 0); }
  }

  lemma FinishKeeps(h: Placement, o: Dict, d: Dict, steps: nat)
    requires Ahead(h, o, d, steps) && d.t0.used == 0
    ensures Later(h, o, Finish(d), steps + 1)
  {
    UnusedIsEmpty(h, d.t0);
    Bits.DoubleIsPow2(|d.t0.buckets|);
    forall k ensures Lookup(h, Finish(d), k) == Lookup(h, o, k) {
      assert Lookup(h, d, k) == Lookup(h, o, k);
    }
  }

  /** The table that receives new entries keeps its size across a rehash step, even when the step
      swaps the tables: a bucket computed before the step is right after it. */
  lemma TargetSizeStable(h: Placement, d: Dict)
    requires Shape(h, d) && d.Rehashing()
    ensures var s := RehashStep(h, d);
            |if s.Rehashing() then s.t1.buckets else s.t0.buckets| == |d.t1.buckets|
  {
    RehashStepKeeps(h, d);
  }

  /** Moving one main bucket into the doubled table. */
  lemma MoveBucketKeeps(h: Placement, d: Dict)
    requires InRehash(h, d) && d.t0.used != 0
    ensures var m := MoveBucket(h, d);
            && InRehash(h, m) && SameContents(h, m, d)
  {
    var b := d.rehashidx;
    var c := d.t0.buckets[b];
    var m := MoveBucket(h, d);
    assert ChainOk(h, c, b, |d.t0.buckets|);
    ReplaceChain(h, d.t0, b, []);
    forall i | 0 <= i < |c| ensures TableGet(h, d.t1, c[i].key) == None {
      ChainGetAt(c, i);
      assert TableGet(h, d.t0, c[i].key).Some?;
    }
    MoveFromGet(h, c, 0, d.t1);
    MovedApart(h, d);
    if m.t0.used != 0 {
      var live := CountPositive(m.t0.buckets, |m.t0.buckets|);
      assert live > b;
    }
  }

  lemma MovedApart(h: Placement, d: Dict)
    requires 0 <= d.rehashidx < |d.t0.buckets| && Apart(h, d.t0, d.t1) && |d.t1.buckets| > 0
    requires TableInv(h, d.t0)
    requires var m := MoveBucket(h, d);
             var b := d.rehashidx;
             && (forall k :: TableGet(h, m.t0, k) ==
                             if Slot(h, |d.t0.buckets|, k) == b then None else TableGet(h, d.t0, k))
             && (forall k :: TableGet(h, m.t1, k) ==
                             if ChainGet(d.t0.buckets[b], k).Some? then ChainGet(d.t0.buckets[b], k)
                             else TableGet(h, d.t1, k))
    ensures var m := MoveBucket(h, d);
            Apart(h, m.t0, m.t1) && forall k :: Lookup(h, m, k) == Lookup(h, d, k)
  {
    var b := d.rehashidx;
    var c, m := d.t0.buckets[b], MoveBucket(h, d);
    assert ChainOk(h, c, b, |d.t0.buckets|);
    forall k
      ensures TableGet(h, m.t0, k).None? || TableGet(h, m.t1, k).None?
      ensures Lookup(h, m, k) == Lookup(h, d, k)
    {
      var p := Position(c, k);
      if p < |c| { assert Slot(h, |d.t0.buckets|, c[p].key) == b; }
    }
  }

  // ---------- effects on the dictionary ----------

  lemma ReplaceMain(h: Placement, d: Dict, t: Table)
    requires Shape(h, d) && TableInv(h, t) && |t.buckets| == |d.t0.buckets|
    requires forall b :: 0 <= b < |t.buckets| && d.t0.buckets[b] == [] ==> d.Rehashing() ==> t.buckets[b] == []
    requires forall k :: TableGet(h, t, k).Some? && d.Rehashing() ==> TableGet(h, d.t0, k).Some?
    ensures Shape(h, d.(t0 := t))
  {
  }

  lemma ReplaceSecond(h: Placement, d: Dict, t: Table)
    requires Shape(h, d) && d.Rehashing() && TableInv(h, t) && |t.buckets| == |d.t1.buckets|
    requires forall k :: TableGet(h, t, k).Some? ==> TableGet(h, d.t0, k).None?
    ensures Shape(h, d.(t1 := t))
  {
  }

  lemma InsertKeeps(h: Placement, d: Dict, e: Entry)
    requires Shape(h, d) && |d.t0.buckets| > 0 && Lookup(h, d, e.key) == None
    ensures var r := Insert(h, d, e);
            && Shape(h, r) && r.Used() == d.Used() + 1
            && r.rehashidx == d.rehashidx && |r.t0.buckets| == |d.t0.buckets|
            && forall k :: Lookup(h, r, k) == if k == e.key then Some(e.value) else Lookup(h, d, k)
  {
    if d.Rehashing() {
      PushGet(h, d.t1, e);
      ReplaceSecond(h, d, Push(h, d.t1, e));
    } else {
      PushGet(h, d.t0, e);
      ReplaceMain(h, d, Push(h, d.t0, e));
    }
  }

  lemma AssignKeeps(h: Placement, d: Dict, key: Bytes, v: Value)
    requires Shape(h, d) && Lookup(h, d, key).Some?
    ensures var r := Assign(h, d, key, v);
            && Shape(h, r) && r.Used() == d.Used()
            && r.rehashidx == d.rehashidx && |r.t0.buckets| == |d.t0.buckets|
            && (r.t0.used == d.t0.used && r.t1.used == d.t1.used)
            && forall k :: Lookup(h, r, k) == if k == key then Some(v) else Lookup(h, d, k)
  {
    if TableGet(h, d.t0, key).Some? {
      AssignGet(h, d.t0, key, v);
      ReplaceMain(h, d, TableAssign(h, d.t0, key, v));
    } else {
      AssignGet(h, d.t1, key, v);
      ReplaceSecond(h, d, TableAssign(h, d.t1, key, v));
    }
  }

  lemma UnlinkKeeps(h: Placement, d: Dict, key: Bytes)
    requires Shape(h, d)
    ensures var r := Unlink(h, d, key);
            && Shape(h, r)
            && r.Used() == d.Used() - (if Lookup(h, d, key).Some? then 1 else 0)
            && r.rehashidx == d.rehashidx && |r.t0.buckets| == |d.t0.buckets|
            && forall k :: Lookup(h, r, k) == if k == key then None else Lookup(h, d, k)
  {
    if TableGet(h, d.t0, key).Some? {
      RemoveGet(h, d.t0, key);
      ReplaceMain(h, d, TableRemove(h, d.t0, key));
    } else if d.Rehashing() && TableGet(h, d.t1, key).Some? {
      RemoveGet(h, d.t1, key);
      ReplaceSecond(h, d, TableRemove(h, d.t1, key));
    }
  }
}
