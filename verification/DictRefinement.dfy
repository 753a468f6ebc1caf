/** What the operations of one shard promise: they refine a plain map at every point of an
    incremental rehash, and the growth bound keeps rehashing ahead of insertion. */
module DictRefinement {
  import opened Wrappers
  import opened NextPower
  import opened DictSpec

  datatype Op = GetOp(key: Bytes) | SetOp(key: Bytes, value: Value) | DelOp(key: Bytes)
  datatype Reply = Got(value: Value) | Stored | Deleted | NotFound

  /** A plain map serving one request. A stored nil reads like an absent key. */
  function MapStep(m: Map, op: Op): (Map, Reply) {
    match op
    case GetOp(k) => (m, Got(if k in m then m[k] else Nil))
    case SetOp(k, v) => (m[k := v], Stored)
    case DelOp(k) => if k in m then (m - {k}, Deleted) else (m, NotFound)
  }

  /** The two-table dictionary serving the same request. */
  function DictStep(h: Placement, d: Dict, op: Op): (Dict, Reply)
    requires Inv(h, d)
  {
    match op
    case GetOp(k) => (d, Got(match Lookup(h, d, k) case Some(v) => v case None => Nil))
    case SetOp(k, v) => (Set(h, d, k, v), Stored)
    case DelOp(k) => var (s, found) := Del(h, d, k); (s, if found then Deleted else NotFound)
  }

  // ---------- single operations ----------

  lemma AddKeeps(h: Placement, d: Dict, k: Bytes, v: Value)
    requires Inv(h, d) && Lookup(h, d, k) == None
    ensures var r := Add(h, d, k, v);
            && Inv(h, r) && r.Used() == d.Used() + 1
            && forall x :: Lookup(h, r, x) == if x == k then Some(v) else Lookup(h, d, x)
  {
    ExpandKeeps(h, d);
    var e := ExpandIfNeeded(d);
    RehashStepKeeps(h, e);
    var s := RehashStep(h, e);
    assert Lookup(h, s, k) == Lookup(h, e, k) == None;
    InsertKeeps(h, s, Entry(k, v));
    assert Growth(Add(h, d, k, v));
  }

  /** Adding an absent key keeps every invariant and extends the map. The growth bound is what
      rules out a second expansion during a rehash. */
  lemma AddRefines(h: Placement, d: Dict, m: Map, k: Bytes, v: Value)
    requires Inv(h, d) && Represents(h, d, m) && Lookup(h, d, k) == None
    ensures Inv(h, Add(h, d, k, v)) && Represents(h, Add(h, d, k, v), m[k := v])
  {
    AddKeeps(h, d, k, v);
    MapGrows(m, k, v);
    assert Lookup(h, d, k) == MapGet(m, k);
    var r := Add(h, d, k, v);
    forall x ensures Lookup(h, r, x) == MapGet(m[k := v], x) {
      assert Lookup(h, d, x) == MapGet(m, x);
    }
  }

  lemma AssignRefines(h: Placement, d: Dict, m: Map, k: Bytes, v: Value)
    requires Inv(h, d) && Represents(h, d, m) && Lookup(h, d, k).Some?
    ensures Inv(h, Assign(h, d, k, v)) && Represents(h, Assign(h, d, k, v), m[k := v])
  {
    MapGrows(m, k, v);
    AssignKeeps(h, d, k, v);
    assert Lookup(h, d, k) == MapGet(m, k);
    var r := Assign(h, d, k, v);
    forall x ensures Lookup(h, r, x) == MapGet(m[k := v], x) {
      assert Lookup(h, d, x) == MapGet(m, x);
    }
  }

  /** `Set` is the map update, whatever stage the rehash is at. */
  lemma SetRefines(h: Placement, d: Dict, m: Map, k: Bytes, v: Value)
    requires Inv(h, d) && Represents(h, d, m)
    ensures Inv(h, Set(h, d, k, v)) && Represents(h, Set(h, d, k, v), m[k := v])
  {
    if Lookup(h, d, k).Some? { AssignRefines(h, d, m, k, v); } else { AddRefines(h, d, m, k, v); }
  }

  lemma DelKeeps(h: Placement, d: Dict, k: Bytes)
    requires Inv(h, d)
    ensures var (r, found) := Del(h, d, k);
            && Inv(h, r)
            && found == Lookup(h, d, k).Some?
            && r.Used() == d.Used() - (if found then 1 else 0)
            && forall x :: Lookup(h, r, x) == if x == k then None else Lookup(h, d, x)
  {
    if d.t0.used == 0 && d.t1.used == 0 {
      UnusedIsEmpty(h, d.t0);
      UnusedIsEmpty(h, d.t1);
    } else {
      RehashStepKeeps(h, d);
      var s := RehashStep(h, d);
      UnlinkKeeps(h, s, k);
      ShrinkGrowth(h, d, Unlink(h, s, k));
      assert Lookup(h, s, k) == Lookup(h, d, k);
    }
  }

  /** `Del` succeeds exactly when the key is present and removes it completely. */
  lemma DelRefines(h: Placement, d: Dict, m: Map, k: Bytes)
    requires Inv(h, d) && Represents(h, d, m)
    ensures var (r, found) := Del(h, d, k);
            Inv(h, r) && Represents(h, r, m - {k}) && (found <==> k in m)
  {
    DelKeeps(h, d, k);
    MapShrinks(m, k);
    assert Lookup(h, d, k) == MapGet(m, k);
    var r := Del(h, d, k).0;
    forall x ensures Lookup(h, r, x) == MapGet(m - {k}, x) {
      assert Lookup(h, d, x) == MapGet(m, x);
    }
  }

  /** The cursor moved by at least one before at most one entry went away. */
  lemma ShrinkGrowth(h: Placement, d: Dict, r: Dict)
    requires Inv(h, d)
    requires var s := RehashStep(h, d);
             && r.rehashidx == s.rehashidx && |r.t0.buckets| == |s.t0.buckets|
             && s.Used() - 1 <= r.Used() <= s.Used()
    requires Shape(h, r)
    ensures Growth(r)
  {
    RehashStepKeeps(h, d);
  }

  // ---------- whole runs ----------

  /** Each request gives the map's next state and the map's reply: a Get answers what is stored or nil and
      changes nothing, a Set stores, a Del removes and says whether there was something to remove. */
  lemma StepRefines(h: Placement, d: Dict, m: Map, op: Op)
    requires Inv(h, d) && Represents(h, d, m)
    ensures var (d', r) := DictStep(h, d, op);
            var (m', r') := MapStep(m, op);
            Inv(h, d') && Represents(h, d', m') && r == r'
    ensures var (d', r) := DictStep(h, d, op);
            match op
            case GetOp(k) => Represents(h, d', m) && r == Got(if k in m then m[k] else Nil)
            case SetOp(k, v) => Represents(h, d', m[k := v]) && r == Stored
            case DelOp(k) => Represents(h, d', m - {k}) && r == if k in m then Deleted else NotFound
  {
    match op
    case GetOp(k) => assert Lookup(h, d, k) == MapGet(m, k);
    case SetOp(k, v) => SetRefines(h, d, m, k, v);
    case DelOp(k) =>
      DelRefines(h, d, m, k);
      assert k !in m ==> m - {k} == m;
  }

  // ---------- what a history of requests says ----------

  predicate Writes(op: Op, k: Bytes) {
    !op.GetOp? && op.key == k
  }

  /** Request j is the last Set or Del of key k. */
  ghost predicate LastWrite(ops: seq<Op>, k: Bytes, j: int) {
    0 <= j < |ops| && Writes(ops[j], k) && forall l :: j < l < |ops| ==> !Writes(ops[l], k)
  }

  ghost predicate NoWrite(ops: seq<Op>, k: Bytes) {
    forall l :: 0 <= l < |ops| ==> !Writes(ops[l], k)
  }

  /** After the requests, on a database that held m, key k holds v: the last Set or Del of k sets it to v,
      or there is none and it held v before. */
  ghost predicate Holds(m: Map, ops: seq<Op>, k: Bytes, v: Value) {
    || (exists j :: LastWrite(ops, k, j) && ops[j] == SetOp(k, v))
    || (NoWrite(ops, k) && k in m && m[k] == v)
  }

  ghost predicate Absent(m: Map, ops: seq<Op>, k: Bytes) {
    || (exists j :: LastWrite(ops, k, j) && ops[j] == DelOp(k))
    || (NoWrite(ops, k) && k !in m)
  }

  /** The reply to a request that follows others: a Get is answered by the value its key holds, or nil; a
      Del says whether its key holds one. */
  ghost predicate ReplyRight(m: Map, before: seq<Op>, op: Op, reply: Reply) {
    match op
    case GetOp(k) =>
      (forall v :: Holds(m, before, k, v) ==> reply == Got(v)) && (Absent(m, before, k) ==> reply == Got(Nil))
    case SetOp(_, _) => reply == Stored
    case DelOp(k) => reply == if Absent(m, before, k) then NotFound else Deleted
  }

  ghost predicate RepliesRight(m: Map, ops: seq<Op>, replies: seq<Reply>) {
    |replies| == |ops| && forall i :: 0 <= i < |ops| ==> ReplyRight(m, ops[..i], ops[i], replies[i])
  }

  function MapRun(m: Map, ops: seq<Op>): (Map, seq<Reply>)
    decreases |ops|
  {
    if ops == [] then (m, [])
    else
      var (m', r) := MapStep(m, ops[0]);
      var (last, rs) := MapRun(m', ops[1..]);
      (last, [r] + rs)
  }

  lemma EmptyRun(m: Map)
    ensures MapRun(m, []) == (m, [])
  {
  }

  lemma {:induction false} MapRunAppend(m: Map, ops: seq<Op>, op: Op)
    ensures var (last, rs) := MapRun(m, ops);
            MapRun(m, ops + [op]) == (MapStep(last, op).0, rs + [MapStep(last, op).1])
    decreases |ops|
  {
    if ops != [] {
      assert (ops + [op])[0] == ops[0] && (ops + [op])[1..] == ops[1..] + [op];
      MapRunAppend(MapStep(m, ops[0]).0, ops[1..], op);
      var r0 := MapStep(m, ops[0]).1;
      var (last, rs) := MapRun(MapStep(m, ops[0]).0, ops[1..]);
      var r := MapStep(last, op).1;
      assert [r0] + (rs + [r]) == ([r0] + rs) + [r];
    } else {
      var r := MapStep(m, op).1;
      assert ops + [op] == [op] && [op][1..] == [];
      assert [r] + [] == [] + [r];
    }
  }

  lemma WriteLast(ops: seq<Op>, op: Op, k: Bytes)
    ensures Writes(op, k) ==> LastWrite(ops + [op], k, |ops|)
    ensures Writes(op, k) ==> !NoWrite(ops + [op], k) && forall j :: LastWrite(ops + [op], k, j) ==> j == |ops|
    ensures !Writes(op, k) ==> (NoWrite(ops + [op], k) <==> NoWrite(ops, k))
    ensures !Writes(op, k) ==> forall j :: LastWrite(ops + [op], k, j) <==> LastWrite(ops, k, j)
  {
    var all := ops + [op];
    assert all[|ops|] == op && forall l :: 0 <= l < |ops| ==> all[l] == ops[l];
    if NoWrite(all, k) {
      forall l | 0 <= l < |ops| ensures !Writes(ops[l], k) { assert !Writes(all[l], k); }
    }
    forall j | LastWrite(all, k, j) && !Writes(op, k) ensures LastWrite(ops, k, j) {
      forall l | j < l < |ops| ensures !Writes(ops[l], k) { assert !Writes(all[l], k); }
    }
  }

  /** What one more request changes of what the history says. */
  lemma HistoryNext(m: Map, ops: seq<Op>, op: Op, k: Bytes)
    ensures Writes(op, k) ==> forall v :: Holds(m, ops + [op], k, v) <==> op == SetOp(k, v)
    ensures Writes(op, k) ==> (Absent(m, ops + [op], k) <==> op == DelOp(k))
    ensures !Writes(op, k) ==> forall v :: Holds(m, ops + [op], k, v) <==> Holds(m, ops, k, v)
    ensures !Writes(op, k) ==> (Absent(m, ops + [op], k) <==> Absent(m, ops, k))
  {
    WriteLast(ops, op, k);
    var all := ops + [op];
    assert all[|ops|] == op && forall j :: 0 <= j < |ops| ==> all[j] == ops[j];
    hide NoWrite;
    if !Writes(op, k) {
      forall j | LastWrite(all, k, j) || LastWrite(ops, k, j) ensures 0 <= j < |ops| && all[j] == ops[j] {
        assert LastWrite(ops, k, j);
      }
    }
    assert forall j :: LastWrite(all, k, j) ==> 0 <= j < |all|;
    assert forall j :: LastWrite(ops, k, j) ==> 0 <= j < |ops|;
    hide LastWrite;
  }

  /** The plain map after a history of requests holds what the history says. */
  lemma {:induction false} HistoryMap(m: Map, ops: seq<Op>, k: Bytes)
    ensures var last := MapRun(m, ops).0;
            && (forall v :: Holds(m, ops, k, v) <==> k in last && last[k] == v)
            && (Absent(m, ops, k) <==> k !in last)
    decreases |ops|
  {
    if ops != [] {
      var n := |ops| - 1;
      var front, op := ops[..n], ops[n];
      assert ops == front + [op];
      HistoryMap(m, front, k);
      MapRunAppend(m, front, op);
      HistoryNext(m, front, op, k);
      hide MapRun, Holds, Absent;
    } else {
      EmptyRun(m);
      hide MapRun;
    }
  }

  /** And its replies are those the history asks for. */
  lemma {:induction false} MapReplies(m: Map, ops: seq<Op>)
    ensures RepliesRight(m, ops, MapRun(m, ops).1)
    decreases |ops|
  {
    if ops != [] {
      var n := |ops| - 1;
      var front, op := ops[..n], ops[n];
      assert ops == front + [op];
      MapReplies(m, front);
      MapRunAppend(m, front, op);
      HistoryMap(m, front, op.key);
      hide MapRun, Holds, Absent;
      var replies := MapRun(m, ops).1;
      assert |replies| == |ops|;
      forall i | 0 <= i < |ops| ensures ReplyRight(m, ops[..i], ops[i], replies[i]) {
        if i < n { assert ops[..i] == front[..i]; }
      }
    } else {
      EmptyRun(m);
    }
  }

  /** Every request keeps the invariant, whatever the dictionary stores. */
  lemma StepKeeps(h: Placement, d: Dict, op: Op)
    requires Inv(h, d)
    ensures Inv(h, DictStep(h, d, op).0)
  {
    match op
    case GetOp(k) =>
    case SetOp(k, v) =>
      if Lookup(h, d, k).Some? { AssignKeeps(h, d, k, v); } else { AddKeeps(h, d, k, v); }
    case DelOp(k) => DelKeeps(h, d, k);
  }

  /** The dictionary serving any sequence of requests, with its replies. */
  function DictRun(h: Placement, d: Dict, ops: seq<Op>): (r: (Dict, seq<Reply>))
    requires Inv(h, d)
    ensures Inv(h, r.0)
    decreases |ops|
  {
    if ops == [] then (d, [])
    else
      StepKeeps(h, d, ops[0]);
      var (d', r) := DictStep(h, d, ops[0]);
      var (last, rs) := DictRun(h, d', ops[1..]);
      (last, [r] + rs)
  }

  /** Any sequence of requests on any reachable dictionary gets exactly a plain map's replies. */
  lemma {:induction false} RunIsMapRun(h: Placement, d: Dict, m: Map, ops: seq<Op>)
    requires Inv(h, d) && Represents(h, d, m)
    ensures var (last, replies) := DictRun(h, d, ops);
            Represents(h, last, MapRun(m, ops).0) && replies == MapRun(m, ops).1
    decreases |ops|
  {
    if ops != [] {
      StepRefines(h, d, m, ops[0]);
      RunIsMapRun(h, DictStep(h, d, ops[0]).0, MapStep(m, ops[0]).0, ops[1..]);
      hide Inv, Represents, DictStep, MapStep;
    }
  }

  /** In terms of the requests alone: each is answered by the last Set or Del of its key before it, or by
      what the dictionary held at first, and so is what the dictionary holds in the end. */
  lemma RunRefines(h: Placement, d: Dict, m: Map, ops: seq<Op>)
    requires Inv(h, d) && Represents(h, d, m)
    ensures var (last, replies) := DictRun(h, d, ops);
            && RepliesRight(m, ops, replies)
            && (forall k, v :: Holds(m, ops, k, v) <==> Lookup(h, last, k) == Some(v))
            && Represents(h, last, MapRun(m, ops).0) && replies == MapRun(m, ops).1
  {
    RunIsMapRun(h, d, m, ops);
    MapReplies(m, ops);
    var (last, replies) := DictRun(h, d, ops);
    forall k, v ensures Holds(m, ops, k, v) <==> Lookup(h, last, k) == Some(v) {
      HistoryMap(m, ops, k);
      assert Lookup(h, last, k) == MapGet(MapRun(m, ops).0, k);
      hide Holds, MapRun, DictRun;
    }
  }

  /** The fresh dictionary of a shard is empty. */
  lemma NewRepresentsEmpty(h: Placement)
    ensures Inv(h, NEW) && Represents(h, NEW, map[])
  {
  }

  // ---------- consequences of the growth bound ----------

  /** Between operations: expansion is due only at exactly full load, and then asks for the doubled
      size; no rehash is pending on an empty dictionary, so the early exits of `get` and `del` hide
      nothing; a pending rehash always ends at load factor at most one. */
  lemma GrowthConsequences(h: Placement, d: Dict)
    requires Inv(h, d)
    ensures !d.Rehashing() && |d.t0.buckets| > 0 ==>
              (d.t0.used >= |d.t0.buckets| <==> d.t0.used == |d.t0.buckets|)
    ensures d.Rehashing() ==> 3 <= d.Used() < |d.t1.buckets|
    ensures d.t0.used == 0 && d.t1.used == 0 ==> !d.Rehashing() && forall k :: Lookup(h, d, k) == None
  {
    if d.t0.used == 0 && d.t1.used == 0 {
      UnusedIsEmpty(h, d.t0);
      UnusedIsEmpty(h, d.t1);
    }
  }

  ghost function Steps(h: Placement, d: Dict, n: nat): (r: Dict)
    requires Shape(h, d)
    ensures Shape(h, r)
    decreases n
  {
    if n == 0 then d
    else
      RehashStepKeeps(h, d);
      Steps(h, RehashStep(h, d), n - 1)
  }

  /** Any rehash ends within as many steps as the main table has buckets, at the doubled size and
      with the same contents. */
  lemma {:induction false} RehashEnds(h: Placement, d: Dict, n: nat)
    requires Shape(h, d) && d.Rehashing() && n >= |d.t0.buckets| - d.rehashidx
    ensures var r := Steps(h, d, n);
            && !r.Rehashing() && |r.t0.buckets| == 2 * |d.t0.buckets|
            && SameContents(h, r, d)
    decreases n
  {
    RehashStepKeeps(h, d);
    var s := RehashStep(h, d);
    if s.Rehashing() {
      RehashEnds(h, s, n - 1);
    } else {
      StepsIdle(h, s, n - 1);
    }
  }

  /** A rehash call with one bucket to move looks at no more buckets than its allowance. */
  lemma {:induction false} CursorBound(h: Placement, d: Dict, visits: nat)
    requires d.rehashidx >= 0 && |d.t1.buckets| > 0 && visits > 0
    ensures var r := Rehash(h, d, 1, visits);
            r.Rehashing() ==> r.rehashidx <= d.rehashidx + visits
    decreases visits
  {
    if d.t0.used != 0 && d.rehashidx < |d.t0.buckets| {
      var next := d.(rehashidx := d.rehashidx + 1);
      if d.t0.buckets[d.rehashidx] != [] {
        RehashMove(h, d, 1, visits);
      } else if visits == 1 {
        RehashEnd(h, next, 1, 0);
      } else {
        CursorBound(h, next, visits - 1);
      }
    }
  }

  /** A call that finishes the rehash has found all the entries that were left in one bucket within its
      allowance. */
  lemma {:induction false} LastBucket(h: Placement, d: Dict, visits: nat)
    requires d.rehashidx >= 0 && |d.t1.buckets| > 0 && visits > 0
    requires d.t0.used != 0 && !Rehash(h, d, 1, visits).Rehashing()
    ensures exists b :: d.rehashidx <= b < d.rehashidx + visits && b < |d.t0.buckets| && |d.t0.buckets[b]| == d.t0.used
    decreases visits
  {
    var next := d.(rehashidx := d.rehashidx + 1);
    if d.t0.buckets[d.rehashidx] != [] {
      RehashMove(h, d, 1, visits);
      assert |d.t0.buckets[d.rehashidx]| == d.t0.used;
    } else {
      RehashSkip(h, d, 1, visits);
      LastBucket(h, next, visits - 1);
      var b :| next.rehashidx <= b < next.rehashidx + (visits - 1) && b < |d.t0.buckets|
               && |d.t0.buckets[b]| == d.t0.used;
    }
  }

  /** One rehash step inspects at most ten buckets. If the rehash is still pending the cursor has moved on
      by one to ten; if the doubled table has taken over and entries were left, they were all in one
      bucket among the next ten. */
  lemma StepInspects(h: Placement, d: Dict)
    requires Shape(h, d) && d.Rehashing()
    ensures var s := RehashStep(h, d);
            s.Rehashing() ==> d.rehashidx < s.rehashidx <= d.rehashidx + 10
    ensures !RehashStep(h, d).Rehashing() && d.t0.used != 0 ==>
              exists b :: d.rehashidx <= b < d.rehashidx + 10 && b < |d.t0.buckets| && |d.t0.buckets[b]| == d.t0.used
  {
    RehashStepKeeps(h, d);
    CursorBound(h, d, VISITS);
    if !RehashStep(h, d).Rehashing() && d.t0.used != 0 { LastBucket(h, d, VISITS); }
  }

  /** Exactly what a step does while entries are left. With j empty buckets from the cursor on before the
      first filled one: if j is less than ten that bucket is moved, and if it held all that was left the
      doubled table takes over; otherwise the cursor moves on by ten and nothing else happens. */
  lemma StepExact(h: Placement, d: Dict, j: nat)
    requires Shape(h, d) && d.Rehashing() && d.t0.used != 0 && d.rehashidx + j < |d.t0.buckets|
    requires d.t0.buckets[d.rehashidx + j] != []
    requires forall i :: d.rehashidx <= i < d.rehashidx + j ==> d.t0.buckets[i] == []
    ensures var s := RehashStep(h, d);
            if j >= 10 then s == d.(rehashidx := d.rehashidx + 10)
            else if |d.t0.buckets[d.rehashidx + j]| == d.t0.used then !s.Rehashing()
            else && s.rehashidx == d.rehashidx + j + 1
                 && s.t0.used == d.t0.used - |d.t0.buckets[d.rehashidx + j]|
  {
    Skipped(h, d, j, VISITS);
  }

  lemma {:induction false} Skipped(h: Placement, d: Dict, j: nat, visits: nat)
    requires d.rehashidx >= 0 && |d.t1.buckets| > 0 && d.t0.used != 0 && d.rehashidx + j < |d.t0.buckets|
    requires d.t0.buckets[d.rehashidx + j] != []
    requires forall i :: d.rehashidx <= i < d.rehashidx + j ==> d.t0.buckets[i] == []
    ensures var s := Rehash(h, d, 1, visits);
            if j >= visits then s == d.(rehashidx := d.rehashidx + visits)
            else if |d.t0.buckets[d.rehashidx + j]| == d.t0.used then !s.Rehashing()
            else && s.rehashidx == d.rehashidx + j + 1
                 && s.t0.used == d.t0.used - |d.t0.buckets[d.rehashidx + j]|
    decreases j
  {
    if visits == 0 {
    } else if j == 0 {
      RehashMove(h, d, 1, visits);
    } else {
      RehashSkip(h, d, 1, visits);
      Skipped(h, d.(rehashidx := d.rehashidx + 1), j - 1, visits - 1);
    }
  }

  lemma {:induction false} StepsIdle(h: Placement, d: Dict, n: nat)
    requires Shape(h, d) && !d.Rehashing()
    ensures Steps(h, d, n) == d
    decreases n
  {
    if n > 0 { StepsIdle(h, d, n - 1); }
  }
}
