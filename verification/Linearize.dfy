/** Any number of threads calling `Get`, `Set` and `Del` (database/operations.go): each call takes the
    lock of its key's shard, runs its body in separate steps and releases the lock. Every interleaving
    behaves like one sequential history of a plain map. */
module Linearize {
  import opened Wrappers
  import opened DictSpec
  import opened DictRefinement
  import opened Operations
  import PcasHash

  type Tid = nat

  /** Where a thread is. `since` is the length of the history when the call was made. */
  datatype Pc =
    | Idle
    | Called(op: Op, since: nat)                     // waiting for the shard lock
    | Locked(op: Op, since: nat)                     // holding it
    | Looked(op: Op, since: nat, found: bool)        // in Set, after get
    | Ran(op: Op, since: nat, reply: Reply, at: nat) // body done as history entry `at`, lock still held

  /** One entry of the sequential history. */
  datatype Event = Event(tid: Tid, op: Op, reply: Reply)

  /** A finished call: made when the history had length since, entered at `at`, returned at length until. */
  datatype Call = Call(event: Event, since: nat, at: nat, until: nat)

  datatype State = State(
    shards: seq<Dict>,
    lock: seq<Option<Tid>>,
    pcs: map<Tid, Pc>,
    log: seq<Event>,
    acquired: seq<seq<Op>>,  // per shard, the calls in the order in which they took the lock
    calls: seq<Call>)

  function PcOf(s: State, t: Tid): Pc {
    if t in s.pcs then s.pcs[t] else Idle
  }

  function Home(s: State, op: Op): (i: nat)
    requires |s.shards| > 0
    ensures i < |s.shards|
  {
    ShardOf(op.key, |s.shards|)
  }

  ghost predicate Init(s: State) {
    && |s.shards| == |s.lock| == |s.acquired| > 0
    && (forall i :: 0 <= i < |s.shards| ==> s.shards[i] == NEW && s.lock[i] == None && s.acquired[i] == [])
    && s.pcs == map[] && s.log == [] && s.calls == []
  }

  // ---------- the steps of a call ----------

  ghost predicate Invoke(s: State, s': State, t: Tid, op: Op) {
    && PcOf(s, t) == Idle
    && s' == s.(pcs := s.pcs[t := Called(op, |s.log|)])
  }

  ghost predicate Acquire(s: State, s': State, t: Tid) {
    && |s.shards| == |s.lock| == |s.acquired| > 0
    && PcOf(s, t).Called?
    && var pc := PcOf(s, t);
       var i := Home(s, pc.op);
       && s.lock[i] == None
       && s' == s.(lock := s.lock[i := Some(t)],
                   acquired := s.acquired[i := s.acquired[i] + [pc.op]],
                   pcs := s.pcs[t := Locked(pc.op, pc.since)])
  }

  /** The first half of `Set`: look the key up. */
  ghost predicate LookUp(h: Placement, s: State, s': State, t: Tid) {
    && |s.shards| > 0
    && PcOf(s, t).Locked? && PcOf(s, t).op.SetOp?
    && var pc := PcOf(s, t);
       s' == s.(pcs := s.pcs[t := Looked(pc.op, pc.since, Lookup(h, s.shards[Home(s, pc.op)], pc.op.key).Some?)])
  }

  /** What the last step of a body does to the shard, and its reply. The second half of `Set`
      overwrites or adds according to what the first half saw. */
  ghost function Body(h: Placement, d: Dict, pc: Pc): (Dict, Reply)
    requires pc.Locked? || pc.Looked?
  {
    match pc.op
    case GetOp(k) => (d, Got(match Lookup(h, d, k) case Some(v) => v case None => Nil))
    case DelOp(k) =>
      if Shape(h, d) then var (d', found) := Del(h, d, k); (d', if found then Deleted else NotFound) else (d, NotFound)
    case SetOp(k, v) =>
      if pc.Locked? then (d, Stored)
      else if pc.found then (if Lookup(h, d, k).Some? then Assign(h, d, k, v) else d, Stored)
      else if Inv(h, d) then (Add(h, d, k, v), Stored) else (d, Stored)
  }

  /** The body is done: the shard is updated and the call enters the history. */
  ghost function AfterRun(h: Placement, s: State, t: Tid): State
    requires |s.shards| > 0 && (PcOf(s, t).Locked? || PcOf(s, t).Looked?)
  {
    var pc := PcOf(s, t);
    var (d, reply) := Body(h, s.shards[Home(s, pc.op)], pc);
    s.(shards := s.shards[Home(s, pc.op) := d],
       log := s.log + [Event(t, pc.op, reply)],
       pcs := s.pcs[t := Ran(pc.op, pc.since, reply, |s.log|)])
  }

  ghost predicate Run(h: Placement, s: State, s': State, t: Tid) {
    && |s.shards| > 0
    && var pc := PcOf(s, t);
       && ((pc.Locked? && !pc.op.SetOp?) || (pc.Looked? && pc.op.SetOp?))
       && s' == AfterRun(h, s, t)
  }

  ghost predicate Return(s: State, s': State, t: Tid) {
    && |s.shards| == |s.lock| > 0
    && PcOf(s, t).Ran?
    && var pc := PcOf(s, t);
       s' == s.(lock := s.lock[Home(s, pc.op) := None],
                calls := s.calls + [Call(Event(t, pc.op, pc.reply), pc.since, pc.at, |s.log|)],
                pcs := s.pcs[t := Idle])
  }

  ghost predicate Next(h: Placement, s: State, s': State) {
    exists t: Tid :: Step(h, s, s', t)
  }

  ghost predicate Step(h: Placement, s: State, s': State, t: Tid) {
    || (exists op :: Invoke(s, s', t, op))
    || Acquire(s, s', t) || LookUp(h, s, s', t) || Run(h, s, s', t) || Return(s, s', t)
  }

  // ---------- sequential histories ----------

  /** The map after a history. */
  function Replay(log: seq<Event>): Map {
    if log == [] then map[] else MapStep(Replay(log[..|log| - 1]), log[|log| - 1].op).0
  }

  function Ops(log: seq<Event>): seq<Op> {
    seq(|log|, i requires 0 <= i < |log| => log[i].op)
  }

  function Replies(log: seq<Event>): seq<Reply> {
    seq(|log|, i requires 0 <= i < |log| => log[i].reply)
  }

  /** Every reply is the one a plain map gives at that point. */
  ghost predicate Legal(log: seq<Event>) {
    forall i :: 0 <= i < |log| ==> log[i].reply == MapStep(Replay(log[..i]), log[i].op).1
  }

  /** The calls of a history that concern shard i, in order. */
  function OnShard(log: seq<Event>, i: nat, count: nat): seq<Op>
    requires count > 0
  {
    if log == [] then []
    else
      var rest := OnShard(log[..|log| - 1], i, count);
      var op := log[|log| - 1].op;
      if ShardOf(op.key, count) == i then rest + [op] else rest
  }

  // ---------- the invariant ----------

  predicate InBody(pc: Pc) {
    pc.Locked? || pc.Looked? || pc.Ran?
  }

  /** Exactly the thread inside a shard's critical section holds its lock. */
  ghost predicate LockInv(s: State) {
    && |s.shards| == |s.lock| == |s.acquired| > 0
    && (forall t: Tid {:trigger PcOf(s, t)} :: InBody(PcOf(s, t)) ==> s.lock[Home(s, PcOf(s, t).op)] == Some(t))
    && (forall i :: 0 <= i < |s.lock| && s.lock[i].Some? ==>
          InBody(PcOf(s, s.lock[i].value)) && Home(s, PcOf(s, s.lock[i].value).op) == i)
  }

  /** The shards together hold the map of the history, and the history is legal. */
  ghost predicate DataInv(h: Placement, s: State) {
    && |s.shards| > 0
    && Legal(s.log)
    && forall i :: 0 <= i < |s.shards| ==>
         Inv(h, s.shards[i]) && Represents(h, s.shards[i], Restrict(Replay(s.log), i, |s.shards|))
  }

  /** What `Set` saw is still true when it acts on it. */
  ghost predicate LookedInv(h: Placement, s: State) {
    && |s.shards| > 0
    && forall t: Tid {:trigger PcOf(s, t)} :: PcOf(s, t).Looked? ==>
         var pc := PcOf(s, t);
         pc.op.SetOp? && (pc.found <==> Lookup(h, s.shards[Home(s, pc.op)], pc.op.key).Some?)
  }

  /** Calls enter the history between being made and returning. */
  ghost predicate TimeInv(s: State) {
    && (forall t: Tid {:trigger PcOf(s, t)} :: PcOf(s, t) != Idle ==> PcOf(s, t).since <= |s.log|)
    && (forall t: Tid {:trigger PcOf(s, t)} :: PcOf(s, t).Ran? ==>
          var pc := PcOf(s, t);
          pc.since <= pc.at < |s.log| && s.log[pc.at] == Event(t, pc.op, pc.reply))
    && (forall c :: c in s.calls ==> c.since <= c.at < c.until <= |s.log| && s.log[c.at] == c.event)
  }

  /** The call that holds shard i's lock and has not entered the history yet. */
  function Pending(s: State, i: nat): seq<Op>
    requires i < |s.lock|
  {
    match s.lock[i]
    case None => []
    case Some(t) => var pc := PcOf(s, t); if pc.Locked? || pc.Looked? then [pc.op] else []
  }

  /** Each shard's part of the history is the order in which its lock was taken. */
  ghost predicate OrderInv(s: State) {
    && |s.shards| == |s.lock| == |s.acquired| > 0
    && forall i :: 0 <= i < |s.acquired| ==> s.acquired[i] == OnShard(s.log, i, |s.shards|) + Pending(s, i)
  }

  ghost predicate AllInv(h: Placement, s: State) {
    LockInv(s) && DataInv(h, s) && LookedInv(h, s) && TimeInv(s) && OrderInv(s)
  }

  // ---------- preservation ----------

  lemma InitKeeps(h: Placement, s: State)
    requires Init(s)
    ensures AllInv(h, s)
  {
    NewRepresentsEmpty(h);
    forall i | 0 <= i < |s.shards|
      ensures Represents(h, s.shards[i], Restrict(Replay(s.log), i, |s.shards|))
    {
      assert Restrict(map[], i, |s.shards|) == map[];
    }
  }

  lemma InvokeKeeps(h: Placement, s: State, s': State, t: Tid, op: Op)
    requires AllInv(h, s) && Invoke(s, s', t, op)
    ensures AllInv(h, s')
  {
    hide Legal, Represents, DictSpec.Inv, Lookup, ShardOf;
    assert forall x: Tid :: x != t ==> PcOf(s', x) == PcOf(s, x);
    forall i | 0 <= i < |s.lock| ensures Pending(s', i) == Pending(s, i) {}
  }

  lemma AcquireKeeps(h: Placement, s: State, s': State, t: Tid)
    requires AllInv(h, s) && Acquire(s, s', t)
    ensures AllInv(h, s')
  {
    hide Legal, Represents, DictSpec.Inv, Lookup, ShardOf;
    var i := Home(s, PcOf(s, t).op);
    assert forall x: Tid :: x != t ==> PcOf(s', x) == PcOf(s, x);
    forall j | 0 <= j < |s.lock|
      ensures Pending(s', j) == if j == i then [PcOf(s, t).op] else Pending(s, j)
    {}
  }

  lemma LookUpKeeps(h: Placement, s: State, s': State, t: Tid)
    requires AllInv(h, s) && LookUp(h, s, s', t)
    ensures AllInv(h, s')
  {
    hide Legal, Represents, DictSpec.Inv, Lookup, ShardOf;
    assert forall x: Tid :: x != t ==> PcOf(s', x) == PcOf(s, x);
    forall j | 0 <= j < |s.lock| ensures Pending(s', j) == Pending(s, j) {}
  }

  lemma ReturnKeeps(h: Placement, s: State, s': State, t: Tid)
    requires AllInv(h, s) && Return(s, s', t)
    ensures AllInv(h, s')
  {
    hide Legal, Represents, DictSpec.Inv, Lookup, ShardOf;
    assert forall x: Tid :: x != t ==> PcOf(s', x) == PcOf(s, x);
    forall j | 0 <= j < |s.lock| ensures Pending(s', j) == Pending(s, j) {}
  }

  /** A map step on a shard's part of the map is the same step on the whole map. */
  lemma StepOnPart(m: Map, op: Op, j: nat, count: nat)
    requires count > 0
    ensures Restrict(MapStep(m, op).0, j, count) ==
            if ShardOf(op.key, count) == j then MapStep(Restrict(m, j, count), op).0 else Restrict(m, j, count)
    ensures ShardOf(op.key, count) == j ==> MapStep(m, op).1 == MapStep(Restrict(m, j, count), op).1
  {
    match op
    case GetOp(k) =>
    case SetOp(k, v) => RestrictSet(m, k, v, j, count);
    case DelOp(k) =>
      RestrictDel(m, k, j, count);
      if k !in m { assert Restrict(m, j, count) - {k} == Restrict(m, j, count); }
  }

  /** Under the lock, the split body does what the whole operation does to the shard's map. */
  lemma BodyRefines(h: Placement, d: Dict, m: Map, pc: Pc)
    requires Inv(h, d) && Represents(h, d, m)
    requires (pc.Locked? && !pc.op.SetOp?) || (pc.Looked? && pc.op.SetOp?)
    requires pc.Looked? ==> (pc.found <==> Lookup(h, d, pc.op.key).Some?)
    ensures var (d', reply) := Body(h, d, pc);
            var (m', reply') := MapStep(m, pc.op);
            Inv(h, d') && Represents(h, d', m') && reply == reply'
    ensures var (d', reply) := Body(h, d, pc);
            match pc.op
            case GetOp(k) => Represents(h, d', m) && reply == Got(if k in m then m[k] else Nil)
            case SetOp(k, v) => Represents(h, d', m[k := v]) && reply == Stored
            case DelOp(k) => Represents(h, d', m - {k}) && reply == if k in m then Deleted else NotFound
  {
    StepRefines(h, d, m, pc.op);
  }

  lemma LegalAppend(log: seq<Event>, e: Event)
    requires Legal(log) && e.reply == MapStep(Replay(log), e.op).1
    ensures Legal(log + [e]) && Replay(log + [e]) == MapStep(Replay(log), e.op).0
  {
    var log' := log + [e];
    assert log'[..|log|] == log;
    forall i | 0 <= i < |log'|
      ensures log'[i].reply == MapStep(Replay(log'[..i]), log'[i].op).1
    {
      if i < |log| { assert log'[..i] == log[..i]; }
    }
  }

  lemma RunKeepsData(h: Placement, s: State, s': State, t: Tid)
    requires AllInv(h, s) && Run(h, s, s', t)
    ensures DataInv(h, s')
  {
    var pc, count := PcOf(s, t), |s.shards|;
    var i, m := Home(s, pc.op), Replay(s.log);
    StepOnPart(m, pc.op, i, count);
    BodyRefines(h, s.shards[i], Restrict(m, i, count), pc);
    LegalAppend(s.log, Event(t, pc.op, Body(h, s.shards[i], pc).1));
    hide Legal, Represents, DictSpec.Inv, Lookup, ShardOf, Body, Restrict;
    forall j | 0 <= j < count
      ensures Inv(h, s'.shards[j]) && Represents(h, s'.shards[j], Restrict(Replay(s'.log), j, count))
    {
      StepOnPart(m, pc.op, j, count);
    }
  }

  lemma RunKeepsLock(h: Placement, s: State, s': State, t: Tid)
    requires AllInv(h, s) && Run(h, s, s', t)
    ensures LockInv(s') && LookedInv(h, s') && TimeInv(s')
  {
    hide Legal, Represents, DictSpec.Inv, Lookup, ShardOf, Body, Restrict, OnShard, Pending, DataInv;
    var pc, i := PcOf(s, t), Home(s, PcOf(s, t).op);
    assert forall x: Tid :: x != t ==> PcOf(s', x) == PcOf(s, x);
    assert forall x: Tid :: x != t && InBody(PcOf(s, x)) ==> Home(s, PcOf(s, x).op) != i;
  }

  lemma RunKeepsOrder(h: Placement, s: State, s': State, t: Tid)
    requires LockInv(s) && OrderInv(s) && Run(h, s, s', t)
    ensures OrderInv(s')
  {
    hide ShardOf, Body;
    var pc, i := PcOf(s, t), Home(s, PcOf(s, t).op);
    assert s'.log[..|s'.log| - 1] == s.log;
    forall j | 0 <= j < |s.lock|
      ensures OnShard(s'.log, j, |s.shards|) + Pending(s', j) == OnShard(s.log, j, |s.shards|) + Pending(s, j)
    {
      if j == i {
        assert Pending(s, j) == [pc.op] && Pending(s', j) == [];
      } else {
        assert Pending(s', j) == Pending(s, j);
      }
    }
  }

  lemma RunKeeps(h: Placement, s: State, s': State, t: Tid)
    requires AllInv(h, s) && Run(h, s, s', t)
    ensures AllInv(h, s')
  {
    RunKeepsData(h, s, s', t);
    RunKeepsLock(h, s, s', t);
    RunKeepsOrder(h, s, s', t);
  }

  lemma StepKeeps(h: Placement, s: State, s': State)
    requires AllInv(h, s) && Next(h, s, s')
    ensures AllInv(h, s')
  {
    var t: Tid :| Step(h, s, s', t);
    if Acquire(s, s', t) {
      AcquireKeeps(h, s, s', t);
    } else if LookUp(h, s, s', t) {
      LookUpKeeps(h, s, s', t);
    } else if Run(h, s, s', t) {
      RunKeeps(h, s, s', t);
    } else if Return(s, s', t) {
      ReturnKeeps(h, s, s', t);
    } else {
      var op :| Invoke(s, s', t, op);
      InvokeKeeps(h, s, s', t, op);
    }
  }

  // ---------- whole runs ----------

  ghost predicate IsRun(h: Placement, run: seq<State>) {
    && run != [] && Init(run[0])
    && forall i :: 0 <= i < |run| - 1 ==> Next(h, run[i], run[i + 1])
  }

  lemma {:induction false} RunInvariant(h: Placement, run: seq<State>, n: nat)
    requires IsRun(h, run) && n < |run|
    ensures AllInv(h, run[n])
  {
    if n == 0 {
      InitKeeps(h, run[0]);
    } else {
      RunInvariant(h, run, n - 1);
      StepKeeps(h, run[n - 1], run[n]);
    }
  }

  /** The replies of a legal history are those of running its operations on a plain map. */
  lemma {:induction false} LegalIsMapRun(log: seq<Event>)
    requires Legal(log)
    ensures MapRun(map[], Ops(log)) == (Replay(log), Replies(log))
  {
    hide MapStep, MapRun;
    if log == [] {
      EmptyRun(map[]);
    } else {
      var n := |log| - 1;
      var front := log[..n];
      assert forall i :: 0 <= i < n ==> front[..i] == log[..i];
      LegalIsMapRun(front);
      MapRunAppend(map[], Ops(front), log[n].op);
      assert Ops(log) == Ops(front) + [log[n].op];
      assert Replies(log) == Replies(front) + [log[n].reply];
    }
  }

  // ---------- the history is exactly the calls ----------

  /** Entry n belongs to a finished call. */
  ghost predicate Finished(s: State, n: nat) {
    exists c :: c in s.calls && c.at == n
  }

  /** Entry n belongs to a call that has run its body and is about to return. */
  predicate Returning(s: State, n: nat)
    requires n < |s.log|
  {
    var pc := PcOf(s, s.log[n].tid);
    pc.Ran? && pc.at == n
  }

  ghost predicate EntryInv(s: State) {
    && (forall a, b :: 0 <= a < b < |s.calls| ==> s.calls[a].at != s.calls[b].at)
    && (forall t: Tid, c {:trigger PcOf(s, t), c in s.calls} ::
          PcOf(s, t).Ran? && c in s.calls ==> c.at != PcOf(s, t).at)
    && forall n: nat :: n < |s.log| ==> Finished(s, n) || Returning(s, n)
  }

  lemma EntryKept(s: State, s': State, t: Tid)
    requires EntryInv(s) && s'.calls == s.calls && s'.log == s.log
    requires forall x: Tid :: x != t ==> PcOf(s', x) == PcOf(s, x)
    requires !PcOf(s, t).Ran? && !PcOf(s', t).Ran?
    ensures EntryInv(s')
  {
    forall n: nat | n < |s'.log| ensures Finished(s', n) || Returning(s', n) {
      assert Finished(s, n) || Returning(s, n);
    }
  }

  lemma EntryReturn(s: State, s': State, t: Tid)
    requires EntryInv(s) && LockInv(s) && TimeInv(s) && Return(s, s', t)
    ensures EntryInv(s')
  {
    hide Home, LockInv;
    var pc := PcOf(s, t);
    var c := Call(Event(t, pc.op, pc.reply), pc.since, pc.at, |s.log|);
    assert forall x: Tid :: x != t ==> PcOf(s', x) == PcOf(s, x);
    assert c in s'.calls && forall e :: e in s'.calls <==> e in s.calls || e == c;
    assert forall x: Tid {:trigger PcOf(s, x)} :: x != t && PcOf(s, x).Ran? ==> PcOf(s, x).at != pc.at;
    assert forall a :: 0 <= a < |s.calls| ==> s.calls[a] in s.calls && s'.calls[a] == s.calls[a];
    forall n: nat | n < |s'.log| ensures Finished(s', n) || Returning(s', n) {
      assert Finished(s, n) || Returning(s, n);
      if n == pc.at { assert c.at == n; }
    }
  }

  lemma EntryRun(h: Placement, s: State, s': State, t: Tid)
    requires EntryInv(s) && TimeInv(s) && Run(h, s, s', t)
    ensures EntryInv(s')
  {
    hide Body, Home;
    assert forall x: Tid :: x != t ==> PcOf(s', x) == PcOf(s, x);
    forall n: nat | n < |s'.log| ensures Finished(s', n) || Returning(s', n) {
      if n < |s.log| {
        assert Finished(s, n) || Returning(s, n);
      }
    }
  }

  lemma {:induction false} RunEntries(h: Placement, run: seq<State>, n: nat)
    requires IsRun(h, run) && n < |run|
    ensures EntryInv(run[n])
  {
    if n > 0 {
      RunEntries(h, run, n - 1);
      RunInvariant(h, run, n - 1);
      EntryStep(h, run[n - 1], run[n]);
    }
  }

  lemma EntryStep(h: Placement, s: State, s': State)
    requires AllInv(h, s) && EntryInv(s) && Next(h, s, s')
    ensures EntryInv(s')
  {
    hide LockInv, DataInv, LookedInv, OrderInv, TimeInv, EntryInv, Home, Body;
    var t: Tid :| Step(h, s, s', t);
    if Run(h, s, s', t) {
      EntryRun(h, s, s', t);
    } else if Return(s, s', t) {
      EntryReturn(s, s', t);
    } else {
      EntryKept(s, s', t);
    }
  }

  /** Every interleaving of any number of threads is linearizable: in the history each request is answered
      by the last Set or Del of its key before it, as by one plain map; every finished call has an entry of
      its own with the reply the caller got, and every other entry is that of a call about to return; calls
      that did not overlap keep their order; and each shard's calls stand in the order in which its lock was
      taken. */
  lemma Linearizable(h: Placement, run: seq<State>)
    requires IsRun(h, run)
    ensures var s := run[|run| - 1];
            && RepliesRight(map[], Ops(s.log), Replies(s.log))
            && MapRun(map[], Ops(s.log)) == (Replay(s.log), Replies(s.log))
            && (forall c :: c in s.calls ==> c.at < |s.log| && s.log[c.at] == c.event)
            && (forall a, b :: 0 <= a < b < |s.calls| ==> s.calls[a].at != s.calls[b].at)
            && (forall n: nat :: n < |s.log| ==> Finished(s, n) || Returning(s, n))
            && (forall a, b :: a in s.calls && b in s.calls && a.until <= b.since ==> a.at < b.at)
            && (forall i :: 0 <= i < |s.shards| ==>
                  i < |s.acquired| && i < |s.lock| && s.acquired[i] == OnShard(s.log, i, |s.shards|) + Pending(s, i))
  {
    RunInvariant(h, run, |run| - 1);
    RunEntries(h, run, |run| - 1);
    LegalIsMapRun(run[|run| - 1].log);
    MapReplies(map[], Ops(run[|run| - 1].log));
    hide RepliesRight, MapRun, Replay, Ops, Replies;
    hide IsRun, Home, LockInv, DataInv, LookedInv, OnShard, Pending;
  }

  /** In every reachable state the shards partition one map, and each satisfies its invariants: key k is in
      shard i exactly if the last Set or Del of k in the history is a Set and its hash is congruent to i
      modulo the number of shards, and then with the value of that Set. */
  lemma ShardsPartitionMap(h: Placement, run: seq<State>)
    requires IsRun(h, run)
    ensures var s := run[|run| - 1];
            forall i, k, v :: 0 <= i < |s.shards| ==>
              Inv(h, s.shards[i])
              && (Lookup(h, s.shards[i], k) == Some(v) <==>
                    Holds(map[], Ops(s.log), k, v) && (PcasHash.StringHash(k) as int - i) % |s.shards| == 0)
  {
    RunInvariant(h, run, |run| - 1);
    var s := run[|run| - 1];
    LegalIsMapRun(s.log);
    forall i: nat, k, v | i < |s.shards|
      ensures Inv(h, s.shards[i])
      ensures Lookup(h, s.shards[i], k) == Some(v) <==>
              Holds(map[], Ops(s.log), k, v) && (PcasHash.StringHash(k) as int - i) % |s.shards| == 0
    {
      ShardHolds(h, s, i, k);
      ShardIsCongruent(k, i, |s.shards|);
      HistoryMap(map[], Ops(s.log), k);
      hide DictSpec.Inv, Represents, Lookup, Holds, ShardOf, MapRun, Replay, PcasHash.StringHash;
    }
  }

  lemma ShardHolds(h: Placement, s: State, i: nat, k: Bytes)
    requires DataInv(h, s) && i < |s.shards|
    ensures Inv(h, s.shards[i])
    ensures Lookup(h, s.shards[i], k) == if ShardOf(k, |s.shards|) == i then MapGet(Replay(s.log), k) else None
  {
    assert Lookup(h, s.shards[i], k) == MapGet(Restrict(Replay(s.log), i, |s.shards|), k);
    hide ShardOf;
  }

  /** Two threads are never inside the same shard at once. */
  lemma MutualExclusion(h: Placement, run: seq<State>, t: Tid, u: Tid)
    requires IsRun(h, run) && t != u
    requires var s := run[|run| - 1]; |s.shards| > 0 && InBody(PcOf(s, t)) && InBody(PcOf(s, u))
    ensures var s := run[|run| - 1]; Home(s, PcOf(s, t).op) != Home(s, PcOf(s, u).op)
  {
    RunInvariant(h, run, |run| - 1);
    hide ShardOf;
  }

  /** A call makes a step. */
  ghost predicate Advances(h: Placement, s: State, s': State, t: Tid) {
    Acquire(s, s', t) || LookUp(h, s, s', t) || Run(h, s, s', t) || Return(s, s', t)
  }

  ghost predicate SomeoneAdvances(h: Placement, s: State) {
    exists u: Tid, s' :: Advances(h, s, s', u)
  }

  /** The thread that holds a lock can go on. */
  lemma HolderAdvances(h: Placement, s: State, t: Tid)
    requires LockInv(s) && LookedInv(h, s) && InBody(PcOf(s, t))
    ensures exists s' :: Advances(h, s, s', t)
  {
    var pc := PcOf(s, t);
    hide Body, ShardOf, Lookup;
    if pc.Ran? {
      assert Advances(h, s, s.(lock := s.lock[Home(s, pc.op) := None],
                               calls := s.calls + [Call(Event(t, pc.op, pc.reply), pc.since, pc.at, |s.log|)],
                               pcs := s.pcs[t := Idle]), t);
    } else if pc.Locked? && pc.op.SetOp? {
      var found := Lookup(h, s.shards[Home(s, pc.op)], pc.op.key).Some?;
      assert Advances(h, s, s.(pcs := s.pcs[t := Looked(pc.op, pc.since, found)]), t);
    } else {
      assert Advances(h, s, AfterRun(h, s, t), t);
    }
  }

  /** No interleaving deadlocks: while a call is in progress, some call can make a step. */
  lemma NoDeadlock(h: Placement, run: seq<State>, t: Tid)
    requires IsRun(h, run) && PcOf(run[|run| - 1], t) != Idle
    ensures SomeoneAdvances(h, run[|run| - 1])
  {
    RunInvariant(h, run, |run| - 1);
    var s := run[|run| - 1];
    var pc := PcOf(s, t);
    hide IsRun, DataInv, TimeInv, OrderInv, ShardOf, Advances;
    if !pc.Called? {
      HolderAdvances(h, s, t);
    } else {
      WaiterAdvances(h, s, t);
    }
  }

  lemma WaiterAdvances(h: Placement, s: State, t: Tid)
    requires LockInv(s) && LookedInv(h, s) && PcOf(s, t).Called?
    ensures SomeoneAdvances(h, s)
  {
    hide ShardOf;
    var pc := PcOf(s, t);
    var i := Home(s, pc.op);
    if s.lock[i].Some? {
      var u := s.lock[i].value;
      HolderAdvances(h, s, u);
    } else {
      assert Advances(h, s, s.(lock := s.lock[i := Some(t)],
                               acquired := s.acquired[i := s.acquired[i] + [pc.op]],
                               pcs := s.pcs[t := Locked(pc.op, pc.since)]), t);
    }
  }

  /** Bodies that run on different shards can run in either order: same shards, same replies, and
      histories that leave the same map. */
  lemma RunsCommute(h: Placement, s: State, a: State, b: State, t: Tid, u: Tid)
    requires Run(h, s, a, t) && Run(h, a, b, u) && Home(s, PcOf(s, t).op) != Home(s, PcOf(s, u).op)
    ensures exists c, d ::
              && Run(h, s, c, u) && Run(h, c, d, t)
              && d.shards == b.shards && d.lock == b.lock
              && PcOf(d, t).reply == PcOf(b, t).reply && PcOf(d, u).reply == PcOf(b, u).reply
              && Replay(d.log) == Replay(b.log)
  {
    hide Body, ShardOf;
    assert PcOf(a, u) == PcOf(s, u);
    var c := AfterRun(h, s, u);
    assert PcOf(c, t) == PcOf(s, t);
    var d := AfterRun(h, c, t);
    assert Run(h, s, c, u) && Run(h, c, d, t);
    RunsReplay(s.log, b.log[|s.log|], b.log[|s.log| + 1], d.log[|s.log|], d.log[|s.log| + 1], |s.shards|);
    assert b.log == s.log + [b.log[|s.log|], b.log[|s.log| + 1]];
    assert d.log == s.log + [d.log[|s.log|], d.log[|s.log| + 1]];
    assert d.shards == b.shards;
  }

  lemma RunsReplay(log: seq<Event>, x: Event, y: Event, y': Event, x': Event, count: nat)
    requires count > 0 && x.op == x'.op && y.op == y'.op && ShardOf(x.op.key, count) != ShardOf(y.op.key, count)
    ensures Replay(log + [x, y]) == Replay(log + [y', x'])
  {
    KeysCommute(Replay(log), x.op, y.op);
    hide ShardOf, MapStep;
    var one, two := log + [x, y], log + [y', x'];
    assert one[..|one| - 1] == log + [x] && (log + [x])[..|log|] == log;
    assert two[..|two| - 1] == log + [y'] && (log + [y'])[..|log|] == log;
  }
}
