/** The load client (client/main.go:96-357): goroutines that share a limited number of connections, write
    to the database and read back, and report to main over bounded channels. One step of any goroutine at
    a time; a request is one step on the map the database stores. */
module LoadRun {
  import opened Wrappers

  /** A key or a value: the text made from a running number and a round, or a drawn one (hex digits, so
      that it is never empty and fits on a line). */
  datatype Text = Counted(n: nat, round: nat) | Drawn(text: Bytes)

  type Data = map<Text, Text>

  /** `stored` is what the database holds before the run. */
  datatype Config = Config(rounds: nat, parallel: nat, items: Int64, randomize: bool, stored: Data)

  /** Iterations of the item loop. */
  function Items(cfg: Config): nat {
    if cfg.items < 0 then 0 else cfg.items
  }

  datatype Kind = Insert | Check

  /** What a worker reports before it gives its lock back. */
  datatype Signal = MapRet | SetDone | GetDone | RetInt

  function Signals(cfg: Config, kind: Kind): seq<Signal> {
    match kind
    case Insert => if cfg.randomize then [MapRet, SetDone] else [SetDone]
    case Check => if cfg.randomize then [RetInt, GetDone] else [GetDone, RetInt]
  }

  datatype Pc =
    | Waiting                           // for a slot in parChan
    | Selecting                         // has the slot, looks for a pooled connection
    | Opening                           // found none, connects
    | Failed                            // the connect failed: the goroutine returned
    | Working(conn: nat, done: nat)     // done items so far
    | Returning(conn: nat)              // puts the connection back into cliChan
    | Reporting(sent: nat)              // has sent this many of its signals
    | Done

  /** An insert worker has `size` items to set and has set `data`, its testmap; a check worker has `size`
      items to read, the pairs in `data`, and has read the keys in `seen`. */
  datatype Worker = Worker(kind: Kind, size: nat, data: Data, seen: set<Text>, pc: Pc)

  datatype Main =
    | SpawnInserts
    | WaitSet(n: nat)                  // n SetDone signals received
    | WaitMaps                         // random mode: for all testmaps
    | SpawnChecks
    | WaitGet(n: nat)                  // n GetDone signals received
    | Summing(n: nat, checked: nat)    // n results received, and their sum
    | Finished(n: nat, checked: nat)

  datatype State = State(
    main: Main,
    ws: seq<Worker>,
    tokens: nat,           // in parChan
    pool: seq<nat>,        // connections in cliChan
    made: nat,             // connections that exist; the ids are 0 .. made-1
    mapRet: seq<Data>,
    captured: seq<Data>,   // capturemaps
    setDone: nat,
    getDone: nat,
    retInt: seq<nat>,
    db: Data,              // what the database stores
    aborted: bool)         // log.Fatalf ended the process

  function Initial(cfg: Config): State {
    State(SpawnInserts, [], 0, [], 0, [], [], 0, 0, [], cfg.stored, false)
  }

  /** The first n pairs of an upcounting round. The key and the value differ from each other, but are made
      from the same two numbers. */
  function Numbered(round: nat, n: nat): Data {
    if n == 0 then map[] else Numbered(round, n - 1)[Counted(n - 1, round) := Counted(n - 1, round)]
  }

  lemma {:induction false} NumberedHas(round: nat, n: nat)
    ensures |Numbered(round, n)| == n
    ensures forall k :: k in Numbered(round, n) <==> k.Counted? && k.round == round && k.n < n
    ensures forall k :: k in Numbered(round, n) ==> Numbered(round, n)[k] == k
  {
    if n > 0 {
      NumberedHas(round, n - 1);
      MapGrows(Numbered(round, n - 1), Counted(n - 1, round), Counted(n - 1, round));
    }
  }

  // ---------- steps of main ----------

  /** What check worker number k reads. */
  function CheckData(cfg: Config, captured: seq<Data>, k: nat): Data {
    if cfg.randomize && k < |captured| then captured[k] else Numbered(k, Items(cfg))
  }

  function NewCheck(cfg: Config, captured: seq<Data>, k: nat): Worker {
    Worker(Check, |CheckData(cfg, captured, k)|, CheckData(cfg, captured, k), {}, Waiting)
  }

  function NewInsert(cfg: Config): Worker {
    Worker(Insert, Items(cfg), map[], {}, Waiting)
  }

  ghost predicate Spawn(cfg: Config, s: State, s': State) {
    match s.main
    case SpawnInserts =>
      if |s.ws| < cfg.rounds then s' == s.(ws := s.ws + [NewInsert(cfg)])
      else s' == s.(main := WaitSet(0))
    case SpawnChecks =>
      var k := |s.ws| - cfg.rounds;
      if 0 <= k < cfg.rounds then s' == s.(ws := s.ws + [NewCheck(cfg, s.captured, k)])
      else s' == s.(main := WaitGet(0))
    case _ => false
  }

  /** `checked == items*rounds` on ints of 64 bits. */
  predicate SumFits(cfg: Config, checked: nat) {
    Wrap64(checked) == Wrap64(cfg.items * cfg.rounds)
  }

  ghost predicate Receive(cfg: Config, s: State, s': State) {
    match s.main
    case WaitSet(n) =>
      s.setDone > 0 &&
      s' == s.(setDone := s.setDone - 1,
               main := if n + 1 != cfg.rounds then WaitSet(n + 1) else if cfg.randomize then WaitMaps else SpawnChecks)
    case WaitMaps =>
      s.mapRet != [] &&
      var all := s.captured + [s.mapRet[0]];
      s' == s.(mapRet := s.mapRet[1..], captured := all, main := if |all| != cfg.rounds then WaitMaps else SpawnChecks)
    case WaitGet(n) =>
      s.getDone > 0 &&
      s' == s.(getDone := s.getDone - 1, main := if n + 1 != cfg.rounds then WaitGet(n + 1) else Summing(0, 0))
    case Summing(n, checked) =>
      s.retInt != [] &&
      var sum := checked + s.retInt[0];
      s' == s.(retInt := s.retInt[1..], main := if SumFits(cfg, sum) then Finished(n + 1, sum) else Summing(n + 1, sum))
    case _ => false
  }

  // ---------- steps of worker i ----------

  function Put(s: State, i: nat, pc: Pc): seq<Worker>
    requires i < |s.ws|
  {
    s.ws[i := s.ws[i].(pc := pc)]
  }

  ghost predicate Lock(cfg: Config, s: State, s': State, i: nat)
    requires i < |s.ws|
  {
    && s.ws[i].pc == Waiting && s.tokens < cfg.parallel
    && s' == s.(ws := Put(s, i, Selecting), tokens := s.tokens + 1)
  }

  /** The select: a pooled connection if there is one, else a new one. */
  ghost predicate Select(s: State, s': State, i: nat)
    requires i < |s.ws|
  {
    && s.ws[i].pc == Selecting
    && s' == if s.pool != [] then s.(ws := Put(s, i, Working(s.pool[0], 0)), pool := s.pool[1..])
             else s.(ws := Put(s, i, Opening))
  }

  ghost predicate Connect(s: State, s': State, i: nat)
    requires i < |s.ws|
  {
    && s.ws[i].pc == Opening
    && s' == s.(ws := Put(s, i, Working(s.made, 0)), made := s.made + 1)
  }

  ghost predicate Fail(s: State, s': State, i: nat)
    requires i < |s.ws|
  {
    && s.ws[i].pc == Opening
    && s' == s.(ws := Put(s, i, Failed))
  }

  /** What round i may set as item number n. */
  predicate MayDraw(cfg: Config, i: nat, n: nat, key: Text, val: Text) {
    if cfg.randomize then key.Drawn? && val.Drawn? else key == Counted(n, i) && val == key
  }

  /** The worker after setting one more pair, or reading one more key. */
  function Inserted(w: Worker, key: Text, val: Text): Worker
    requires w.pc.Working?
  {
    w.(data := w.data[key := val], pc := Working(w.pc.conn, w.pc.done + 1))
  }

  function Checked(w: Worker, key: Text): Worker
    requires w.pc.Working?
  {
    w.(seen := w.seen + {key}, pc := Working(w.pc.conn, w.pc.done + 1))
  }

  ghost predicate InsertItem(cfg: Config, s: State, s': State, i: nat)
    requires i < |s.ws|
  {
    var w := s.ws[i];
    && w.kind == Insert && w.pc.Working? && w.pc.done < w.size
    && exists key, val ::
         && MayDraw(cfg, i, w.pc.done, key, val)
         && s' == s.(ws := s.ws[i := Inserted(w, key, val)], db := s.db[key := val])
  }

  /** What is read under a key of the worker is what the worker expects. */
  predicate Right(db: Data, w: Worker, key: Text) {
    key in w.data && key in db && db[key] == w.data[key]
  }

  /** Read one of the keys that are left: the next one is right, or the process ends. */
  ghost predicate CheckItem(s: State, s': State, i: nat)
    requires i < |s.ws|
  {
    var w := s.ws[i];
    && w.kind == Check && w.pc.Working? && w.pc.done < w.size
    && exists key ::
         key in w.data && key !in w.seen && Right(s.db, w, key) && s' == s.(ws := s.ws[i := Checked(w, key)])
  }

  ghost predicate Misread(s: State, s': State, i: nat)
    requires i < |s.ws|
  {
    var w := s.ws[i];
    && w.kind == Check && w.pc.Working? && w.pc.done < w.size
    && (exists key :: key in w.data && key !in w.seen && !Right(s.db, w, key))
    && s' == s.(aborted := true)
  }

  ghost predicate EndWork(s: State, s': State, i: nat)
    requires i < |s.ws|
  {
    && s.ws[i].pc.Working? && s.ws[i].pc.done >= s.ws[i].size
    && s' == s.(ws := Put(s, i, Returning(s.ws[i].pc.conn)))
  }

  ghost predicate GiveBack(cfg: Config, s: State, s': State, i: nat)
    requires i < |s.ws|
  {
    && s.ws[i].pc.Returning? && |s.pool| < cfg.parallel
    && s' == s.(ws := Put(s, i, Reporting(0)), pool := s.pool + [s.ws[i].pc.conn])
  }

  ghost predicate Report(cfg: Config, s: State, s': State, i: nat)
    requires i < |s.ws|
  {
    && s.ws[i].pc.Reporting?
    && var w := s.ws[i];
       var sent := w.pc.sent;
       && sent < |Signals(cfg, w.kind)|
       && var ws := Put(s, i, Reporting(sent + 1));
          match Signals(cfg, w.kind)[sent]
          case SetDone => s.setDone < cfg.rounds && s' == s.(ws := ws, setDone := s.setDone + 1)
          case GetDone => s.getDone < cfg.rounds && s' == s.(ws := ws, getDone := s.getDone + 1)
          case RetInt => |s.retInt| < cfg.rounds && s' == s.(ws := ws, retInt := s.retInt + [w.size])
          case MapRet => |s.mapRet| < cfg.rounds && s' == s.(ws := ws, mapRet := s.mapRet + [w.data])
  }

  ghost predicate Unlock(cfg: Config, s: State, s': State, i: nat)
    requires i < |s.ws|
  {
    && s.ws[i].pc == Reporting(|Signals(cfg, s.ws[i].kind)|) && s.tokens > 0
    && s' == s.(ws := Put(s, i, Done), tokens := s.tokens - 1)
  }

  ghost predicate WorkerStep(cfg: Config, s: State, s': State, i: nat)
    requires i < |s.ws|
  {
    || Lock(cfg, s, s', i) || Select(s, s', i) || Connect(s, s', i) || Fail(s, s', i)
    || InsertItem(cfg, s, s', i) || CheckItem(s, s', i) || Misread(s, s', i) || EndWork(s, s', i)
    || GiveBack(cfg, s, s', i) || Report(cfg, s, s', i) || Unlock(cfg, s, s', i)
  }

  ghost predicate Next(cfg: Config, s: State, s': State) {
    && !s.aborted
    && (Spawn(cfg, s, s') || Receive(cfg, s, s') || exists i: nat :: i < |s.ws| && WorkerStep(cfg, s, s', i))
  }

  // ---------- counting over the workers ----------

  datatype Measure =
    | Locks | Conns | Connecting | Failures
    | Unsent(signal: Signal)
    | CheckSize   // items a check worker has to check
    | UnsentSize  // the same, while its result is unsent
    | Remaining

  predicate HasConn(pc: Pc) {
    pc.Working? || pc.Returning?
  }

  /** The signal is still to be sent. */
  predicate Owes(cfg: Config, w: Worker, signal: Signal) {
    signal in Signals(cfg, w.kind) &&
    match w.pc
    case Reporting(sent) => sent <= |Signals(cfg, w.kind)| && signal !in Signals(cfg, w.kind)[..sent]
    case Done => false
    case _ => true
  }

  function Weight(cfg: Config, m: Measure, w: Worker): nat {
    match m
    case Locks => if w.pc.Waiting? || w.pc.Done? then 0 else 1
    case Conns => if HasConn(w.pc) then 1 else 0
    case Connecting => if w.pc.Opening? then 1 else 0
    case Failures => if w.pc.Failed? then 1 else 0
    case Unsent(signal) => if Owes(cfg, w, signal) then 1 else 0
    case CheckSize => if w.kind == Check then w.size else 0
    case UnsentSize => if Owes(cfg, w, RetInt) then w.size else 0
    case Remaining =>
      match w.pc
      case Waiting => w.size + 10
      case Selecting => w.size + 9
      case Opening => w.size + 8
      case Failed => 0
      case Working(_, done) => if done <= w.size then w.size - done + 7 else 7
      case Returning(_) => 6
      case Reporting(sent) => if sent <= 2 then 5 - sent else 3
      case Done => 0
  }

  function Sum(cfg: Config, m: Measure, ws: seq<Worker>): nat {
    if ws == [] then 0 else Sum(cfg, m, ws[..|ws| - 1]) + Weight(cfg, m, ws[|ws| - 1])
  }

  lemma {:induction false} SumUpdate(cfg: Config, m: Measure, ws: seq<Worker>, i: nat, w: Worker)
    requires i < |ws|
    ensures Sum(cfg, m, ws[i := w]) == Sum(cfg, m, ws) - Weight(cfg, m, ws[i]) + Weight(cfg, m, w)
    decreases |ws|
  {
    hide Weight;
    var n := |ws| - 1;
    if i == n {
      assert ws[i := w][..n] == ws[..n];
    } else {
      SumUpdate(cfg, m, ws[..n], i, w);
      assert ws[i := w][..n] == ws[..n][i := w];
    }
  }

  lemma SumAppend(cfg: Config, m: Measure, ws: seq<Worker>, w: Worker)
    ensures Sum(cfg, m, ws + [w]) == Sum(cfg, m, ws) + Weight(cfg, m, w)
  {
    assert (ws + [w])[..|ws|] == ws;
  }

  lemma {:induction false} SumAtLeast(cfg: Config, m: Measure, ws: seq<Worker>, i: nat)
    requires i < |ws|
    ensures Weight(cfg, m, ws[i]) <= Sum(cfg, m, ws)
    decreases |ws|
  {
    hide Weight;
    if i < |ws| - 1 { SumAtLeast(cfg, m, ws[..|ws| - 1], i); }
  }

  lemma {:induction false} SumZero(cfg: Config, m: Measure, ws: seq<Worker>)
    requires forall i :: 0 <= i < |ws| ==> Weight(cfg, m, ws[i]) == 0
    ensures Sum(cfg, m, ws) == 0
    decreases |ws|
  {
    hide Weight;
    if ws != [] { SumZero(cfg, m, ws[..|ws| - 1]); }
  }

  // ---------- invariants ----------

  /** Slots in use are held by workers, connections are pooled or held, and there are never more of
      them, existing or being opened, than `parallel`. */
  ghost predicate Counting(cfg: Config, s: State) {
    && s.tokens == Sum(cfg, Locks, s.ws) <= cfg.parallel
    && s.made == |s.pool| + Sum(cfg, Conns, s.ws)
    && s.made + Sum(cfg, Connecting, s.ws) <= cfg.parallel
  }

  function ConnOf(pc: Pc): nat
    requires HasConn(pc)
  {
    pc.conn
  }

  /** Each connection is held by at most one worker or sits once in the pool. */
  ghost predicate Exclusive(s: State) {
    && (forall a, b :: 0 <= a < b < |s.pool| ==> s.pool[a] != s.pool[b])
    && (forall a :: 0 <= a < |s.pool| ==> s.pool[a] < s.made)
    && (forall i :: 0 <= i < |s.ws| && HasConn(s.ws[i].pc) ==>
          ConnOf(s.ws[i].pc) < s.made && ConnOf(s.ws[i].pc) !in s.pool)
    && forall i, j :: 0 <= i < j < |s.ws| && HasConn(s.ws[i].pc) && HasConn(s.ws[j].pc) ==>
         ConnOf(s.ws[i].pc) != ConnOf(s.ws[j].pc)
  }

  /** How many pairs an insert worker has set. */
  function Written(w: Worker): nat {
    match w.pc
    case Working(_, done) => done
    case Returning(_) => w.size
    case Reporting(_) => w.size
    case Done => w.size
    case _ => 0
  }

  ghost predicate WorkerOk(cfg: Config, i: nat, w: Worker) {
    && (w.kind == Insert <==> i < cfg.rounds)
    && (w.pc.Working? ==> w.pc.done <= w.size)
    && (w.pc.Reporting? ==> w.pc.sent <= |Signals(cfg, w.kind)|)
    && (cfg.parallel == 0 ==> w.pc == Waiting)
    && (w.kind == Insert ==> w.size == Items(cfg) && |w.data| <= Written(w))
    && (w.kind == Check ==> w.size == |w.data| <= Items(cfg))
  }

  /** The workers that main has started by now, and the maps it has. */
  ghost predicate Started(cfg: Config, s: State) {
    && (forall i :: 0 <= i < |s.ws| ==> WorkerOk(cfg, i, s.ws[i]))
    && (forall m :: m in s.mapRet || m in s.captured ==> |m| <= Items(cfg))
    && (if s.main.SpawnInserts? || s.main.WaitSet? || !cfg.randomize then s.captured == []
        else if s.main.WaitMaps? then |s.captured| < cfg.rounds
        else |s.captured| == cfg.rounds)
    && match s.main
       case SpawnInserts => |s.ws| <= cfg.rounds
       case WaitSet(n) => |s.ws| == cfg.rounds && (n == 0 || n < cfg.rounds)
       case WaitMaps => |s.ws| == cfg.rounds && cfg.randomize
       case SpawnChecks => cfg.rounds <= |s.ws| <= 2 * cfg.rounds && cfg.rounds > 0
       case WaitGet(n) => |s.ws| == 2 * cfg.rounds && n < cfg.rounds
       case Summing(n, checked) => |s.ws| == 2 * cfg.rounds && n <= cfg.rounds && cfg.rounds > 0
       case Finished(n, checked) => |s.ws| == 2 * cfg.rounds && n <= cfg.rounds && cfg.rounds > 0
  }

  function InChannel(s: State, signal: Signal): nat {
    match signal
    case MapRet => |s.mapRet|
    case SetDone => s.setDone
    case GetDone => s.getDone
    case RetInt => |s.retInt|
  }

  /** How many of a signal main has received. */
  function Received(cfg: Config, s: State, signal: Signal): nat {
    match signal
    case SetDone => if s.main.SpawnInserts? then 0 else if s.main.WaitSet? then s.main.n else cfg.rounds
    case MapRet => |s.captured|
    case GetDone => if s.main.WaitGet? then s.main.n else if s.main.Summing? || s.main.Finished? then cfg.rounds else 0
    case RetInt => if s.main.Summing? || s.main.Finished? then s.main.n else 0
  }

  function Unstarted(cfg: Config, s: State, kind: Kind): nat {
    match kind
    case Insert => if |s.ws| < cfg.rounds then cfg.rounds - |s.ws| else 0
    case Check =>
      if |s.ws| < cfg.rounds then cfg.rounds
      else if |s.ws| < 2 * cfg.rounds then 2 * cfg.rounds - |s.ws| else 0
  }

  function Sender(signal: Signal): Kind {
    if signal == MapRet || signal == SetDone then Insert else Check
  }

  /** Every round sends each of its signals once: it is unsent, in the channel or received. */
  ghost predicate Accounted(cfg: Config, s: State, signal: Signal) {
    InChannel(s, signal) + Received(cfg, s, signal) + Sum(cfg, Unsent(signal), s.ws)
    + (if signal == MapRet && !cfg.randomize then 0 else Unstarted(cfg, s, Sender(signal)))
    == if signal == MapRet && !cfg.randomize then 0 else cfg.rounds
  }

  ghost predicate AllAccounted(cfg: Config, s: State) {
    Accounted(cfg, s, MapRet) && Accounted(cfg, s, SetDone) && Accounted(cfg, s, GetDone) && Accounted(cfg, s, RetInt)
  }

  /** No result is more than the number of items, and main stops at the first sum that fits. */
  ghost predicate Summed(cfg: Config, s: State) {
    && (forall v :: v in s.retInt ==> v <= Items(cfg))
    && match s.main
       case Summing(n, checked) => checked <= n * Items(cfg) && (n > 0 ==> !SumFits(cfg, checked))
       case Finished(n, checked) => checked <= n * Items(cfg) && n > 0 && SumFits(cfg, checked)
       case _ => true
  }

  function Total(vs: seq<nat>): nat {
    if vs == [] then 0 else Total(vs[..|vs| - 1]) + vs[|vs| - 1]
  }

  lemma {:induction false} TotalTail(vs: seq<nat>)
    requires vs != []
    ensures Total(vs) == vs[0] + Total(vs[1..])
    decreases |vs|
  {
    if |vs| > 1 {
      var n := |vs| - 1;
      TotalTail(vs[..n]);
      assert vs[..n][1..] == vs[1..][..n - 1];
    }
  }

  /** The sum main has taken. */
  function Tallied(main: Main): nat {
    match main
    case Summing(_, checked) => checked
    case Finished(_, checked) => checked
    case _ => 0
  }

  /** No result is lost or made up: what main has summed, what is in the channel and what is still to be
      sent is what the check workers have to check. */
  ghost predicate Tally(cfg: Config, s: State) {
    Total(s.retInt) + Tallied(s.main) + Sum(cfg, UnsentSize, s.ws) == Sum(cfg, CheckSize, s.ws)
  }

  ghost predicate Inv(cfg: Config, s: State) {
    Counting(cfg, s) && Exclusive(s) && Started(cfg, s) && AllAccounted(cfg, s) && Summed(cfg, s) && Tally(cfg, s)
  }

  // ---------- preservation ----------

  lemma InitKeeps(cfg: Config)
    ensures Inv(cfg, Initial(cfg))
  {
  }

  /** A worker step that sends nothing and receives nothing: worker i becomes w. */
  ghost predicate Quiet(cfg: Config, s: State, s': State, i: nat, w: Worker)
    requires i < |s.ws|
  {
    && s' == s.(ws := s.ws[i := w], tokens := s'.tokens, pool := s'.pool, made := s'.made, db := s'.db)
    && w.kind == s.ws[i].kind && w.size == s.ws[i].size
    && forall signal :: Owes(cfg, s.ws[i], signal) == Owes(cfg, w, signal)
  }

  /** It keeps the accounts and the worker table. */
  lemma QuietStep(cfg: Config, s: State, s': State, i: nat, w: Worker)
    requires Started(cfg, s) && AllAccounted(cfg, s) && Summed(cfg, s) && Tally(cfg, s) && i < |s.ws|
    requires Quiet(cfg, s, s', i, w) && WorkerOk(cfg, i, w)
    ensures Started(cfg, s') && AllAccounted(cfg, s') && Summed(cfg, s') && Tally(cfg, s')
  {
    QuietAccounted(cfg, s, s', i, w, MapRet);
    QuietAccounted(cfg, s, s', i, w, SetDone);
    QuietAccounted(cfg, s, s', i, w, GetDone);
    QuietAccounted(cfg, s, s', i, w, RetInt);
    QuietTally(cfg, s, s', i, w);
    hide Owes, Accounted, Signals, Tally, WorkerOk;
  }

  lemma QuietTally(cfg: Config, s: State, s': State, i: nat, w: Worker)
    requires Tally(cfg, s) && i < |s.ws| && Quiet(cfg, s, s', i, w)
    ensures Tally(cfg, s')
  {
    SumUpdate(cfg, UnsentSize, s.ws, i, w);
    SumUpdate(cfg, CheckSize, s.ws, i, w);
    hide Owes, Sum, Total;
  }

  lemma QuietAccounted(cfg: Config, s: State, s': State, i: nat, w: Worker, signal: Signal)
    requires Accounted(cfg, s, signal) && i < |s.ws| && Quiet(cfg, s, s', i, w)
    ensures Accounted(cfg, s', signal)
  {
    SumUpdate(cfg, Unsent(signal), s.ws, i, w);
    SameProgress(cfg, s, s', signal);
    hide Owes, Sum, Received, Unstarted;
  }

  /** How the counts of slots and connections change in a worker step. */
  lemma PutCounts(cfg: Config, s: State, i: nat, w: Worker)
    requires i < |s.ws|
    ensures forall m :: m in {Locks, Conns, Connecting} ==>
              Sum(cfg, m, s.ws[i := w]) == Sum(cfg, m, s.ws) - Weight(cfg, m, s.ws[i]) + Weight(cfg, m, w)
  {
    SumUpdate(cfg, Locks, s.ws, i, w);
    SumUpdate(cfg, Conns, s.ws, i, w);
    SumUpdate(cfg, Connecting, s.ws, i, w);
  }

  /** A worker at work on another item holds what it held. */
  lemma ItemKeeps(cfg: Config, s: State, s': State, i: nat, w: Worker)
    requires Inv(cfg, s) && i < |s.ws| && s.ws[i].pc.Working? && w.pc.Working? && w.pc.conn == s.ws[i].pc.conn
    requires w.kind == s.ws[i].kind && w.size == s.ws[i].size && WorkerOk(cfg, i, w)
    requires s' == s.(ws := s.ws[i := w], db := s'.db)
    ensures Inv(cfg, s')
  {
    QuietStep(cfg, s, s', i, w);
    PutCounts(cfg, s, i, w);
    hide Sum, Started, AllAccounted, Summed, Tally, WorkerOk;
  }

  lemma InsertItemKeeps(cfg: Config, s: State, s': State, i: nat)
    requires Inv(cfg, s) && i < |s.ws| && InsertItem(cfg, s, s', i)
    ensures Inv(cfg, s')
  {
    var w := s.ws[i];
    var key, val :| s' == s.(ws := s.ws[i := Inserted(w, key, val)], db := s.db[key := val]);
    MapGrows(w.data, key, val);
    WorkerIsOk(cfg, s, i);
    ItemKeeps(cfg, s, s', i, Inserted(w, key, val));
    hide Inv;
  }

  lemma CheckItemKeeps(cfg: Config, s: State, s': State, i: nat)
    requires Inv(cfg, s) && i < |s.ws| && CheckItem(s, s', i)
    ensures Inv(cfg, s')
  {
    var key :| s' == s.(ws := s.ws[i := Checked(s.ws[i], key)]);
    WorkerIsOk(cfg, s, i);
    ItemKeeps(cfg, s, s', i, Checked(s.ws[i], key));
    hide Inv;
  }

  lemma WorkerIsOk(cfg: Config, s: State, i: nat)
    requires Inv(cfg, s) && i < |s.ws|
    ensures WorkerOk(cfg, i, s.ws[i])
  {
    hide Counting, Exclusive, AllAccounted, Summed, Tally;
  }

  lemma MisreadKeeps(cfg: Config, s: State, s': State, i: nat)
    requires Inv(cfg, s) && i < |s.ws| && Misread(s, s', i)
    ensures Inv(cfg, s')
  {
    hide Sum, Total, WorkerOk;
  }

  lemma LockKeeps(cfg: Config, s: State, s': State, i: nat)
    requires Inv(cfg, s) && i < |s.ws| && Lock(cfg, s, s', i)
    ensures Inv(cfg, s')
  {
    QuietStep(cfg, s, s', i, s.ws[i].(pc := Selecting));
    PutCounts(cfg, s, i, s.ws[i].(pc := Selecting));
    hide Sum, Started, AllAccounted, Summed, Tally;
  }

  lemma SelectKeeps(cfg: Config, s: State, s': State, i: nat)
    requires Inv(cfg, s) && i < |s.ws| && Select(s, s', i)
    ensures Inv(cfg, s')
  {
    if s.pool != [] {
      TakeKeeps(cfg, s, s', i);
      hide Inv;
    } else {
      OpenKeeps(cfg, s, s', i);
      hide Inv;
    }
  }

  lemma OpenKeeps(cfg: Config, s: State, s': State, i: nat)
    requires Inv(cfg, s) && i < |s.ws| && Select(s, s', i) && s.pool == []
    ensures Inv(cfg, s')
  {
    QuietStep(cfg, s, s', i, s.ws[i].(pc := Opening));
    PutCounts(cfg, s, i, s.ws[i].(pc := Opening));
    SelectingFirst(cfg, s.ws, i);
    hide Sum, Started, AllAccounted, Summed, Tally;
  }

  lemma TakeKeeps(cfg: Config, s: State, s': State, i: nat)
    requires Inv(cfg, s) && i < |s.ws| && Select(s, s', i) && s.pool != []
    ensures Inv(cfg, s')
  {
    TakeExclusive(cfg, s, s', i);
    QuietStep(cfg, s, s', i, s.ws[i].(pc := Working(s.pool[0], 0)));
    PutCounts(cfg, s, i, s.ws[i].(pc := Working(s.pool[0], 0)));
    hide Sum, Exclusive, Started, AllAccounted, Summed, Tally;
  }

  lemma TakeExclusive(cfg: Config, s: State, s': State, i: nat)
    requires Exclusive(s) && i < |s.ws| && Select(s, s', i) && s.pool != []
    ensures Exclusive(s')
  {
    assert forall a :: 0 <= a < |s'.pool| ==> s'.pool[a] == s.pool[a + 1];
  }

  /** A worker that has a slot but no connection leaves room for one more connection. */
  lemma {:induction false} SelectingFirst(cfg: Config, ws: seq<Worker>, i: nat)
    requires i < |ws| && ws[i].pc == Selecting
    ensures Sum(cfg, Conns, ws) + Sum(cfg, Connecting, ws) < Sum(cfg, Locks, ws)
    decreases |ws|
  {
    var n := |ws| - 1;
    if i == n {
      ConnsLocked(cfg, ws[..n]);
    } else {
      SelectingFirst(cfg, ws[..n], i);
    }
  }

  lemma {:induction false} ConnsLocked(cfg: Config, ws: seq<Worker>)
    ensures Sum(cfg, Conns, ws) + Sum(cfg, Connecting, ws) <= Sum(cfg, Locks, ws)
    decreases |ws|
  {
    if ws != [] { ConnsLocked(cfg, ws[..|ws| - 1]); }
  }

  lemma ConnectKeeps(cfg: Config, s: State, s': State, i: nat)
    requires Inv(cfg, s) && i < |s.ws| && Connect(s, s', i)
    ensures Inv(cfg, s')
  {
    QuietStep(cfg, s, s', i, s.ws[i].(pc := Working(s.made, 0)));
    PutCounts(cfg, s, i, s.ws[i].(pc := Working(s.made, 0)));
    hide Sum, Started, AllAccounted, Summed, Tally;
  }

  lemma FailKeeps(cfg: Config, s: State, s': State, i: nat)
    requires Inv(cfg, s) && i < |s.ws| && Fail(s, s', i)
    ensures Inv(cfg, s')
  {
    QuietStep(cfg, s, s', i, s.ws[i].(pc := Failed));
    PutCounts(cfg, s, i, s.ws[i].(pc := Failed));
    hide Sum, Started, AllAccounted, Summed, Tally;
  }

  lemma EndWorkKeeps(cfg: Config, s: State, s': State, i: nat)
    requires Inv(cfg, s) && i < |s.ws| && EndWork(s, s', i)
    ensures Inv(cfg, s')
  {
    var w := s.ws[i].(pc := Returning(s.ws[i].pc.conn));
    QuietStep(cfg, s, s', i, w);
    PutCounts(cfg, s, i, w);
    hide Sum, Started, AllAccounted, Summed, Tally;
  }

  lemma GiveBackKeeps(cfg: Config, s: State, s': State, i: nat)
    requires Inv(cfg, s) && i < |s.ws| && GiveBack(cfg, s, s', i)
    ensures Inv(cfg, s')
  {
    QuietStep(cfg, s, s', i, s.ws[i].(pc := Reporting(0)));
    PutCounts(cfg, s, i, s.ws[i].(pc := Reporting(0)));
    hide Sum, Started, AllAccounted, Summed, Tally;
  }

  lemma UnlockKeeps(cfg: Config, s: State, s': State, i: nat)
    requires Inv(cfg, s) && i < |s.ws| && Unlock(cfg, s, s', i)
    ensures Inv(cfg, s')
  {
    assert forall signal :: signal in Signals(cfg, s.ws[i].kind) ==>
             signal in Signals(cfg, s.ws[i].kind)[..|Signals(cfg, s.ws[i].kind)|];
    QuietStep(cfg, s, s', i, s.ws[i].(pc := Done));
    PutCounts(cfg, s, i, s.ws[i].(pc := Done));
    hide Sum, Started, AllAccounted, Summed, Tally;
  }

  /** Sending signal number `sent` leaves exactly that signal no longer owed. */
  lemma OwesNext(cfg: Config, w: Worker, signal: Signal)
    requires w.pc.Reporting? && w.pc.sent < |Signals(cfg, w.kind)|
    ensures Owes(cfg, w.(pc := Reporting(w.pc.sent + 1)), signal) <==>
            Owes(cfg, w, signal) && signal != Signals(cfg, w.kind)[w.pc.sent]
    ensures Owes(cfg, w, Signals(cfg, w.kind)[w.pc.sent])
  {
    var all, sent := Signals(cfg, w.kind), w.pc.sent;
    assert all[..sent + 1] == all[..sent] + [all[sent]];
  }

  lemma ReportKeeps(cfg: Config, s: State, s': State, i: nat)
    requires Inv(cfg, s) && i < |s.ws| && Report(cfg, s, s', i)
    ensures Inv(cfg, s')
  {
    ReportAccounted(cfg, s, s', i);
    ReportStarted(cfg, s, s', i);
    ReportShape(cfg, s, s', i);
    ReportConns(cfg, s, s', i);
    ReportTally(cfg, s, s', i);
    hide Report, Counting, Exclusive, Started, AllAccounted, Summed, Tally;
  }

  lemma ReportTally(cfg: Config, s: State, s': State, i: nat)
    requires Tally(cfg, s) && i < |s.ws| && Report(cfg, s, s', i)
    ensures Tally(cfg, s')
  {
    var w := s.ws[i];
    OwesNext(cfg, w, RetInt);
    ReportShape(cfg, s, s', i);
    SumUpdate(cfg, UnsentSize, s.ws, i, s'.ws[i]);
    SumUpdate(cfg, CheckSize, s.ws, i, s'.ws[i]);
    ReportResult(cfg, s, s', i);
    hide Sum, Owes, Signals, Report;
  }

  lemma ReportResult(cfg: Config, s: State, s': State, i: nat)
    requires i < |s.ws| && Report(cfg, s, s', i)
    ensures var signal := Signals(cfg, s.ws[i].kind)[s.ws[i].pc.sent];
            Total(s'.retInt) == Total(s.retInt) + if signal == RetInt then s.ws[i].size else 0
  {
    hide Signals;
    assert (s.retInt + [s.ws[i].size])[..|s.retInt|] == s.retInt;
  }

  lemma ReportShape(cfg: Config, s: State, s': State, i: nat)
    requires i < |s.ws| && Report(cfg, s, s', i)
    ensures s.ws[i].pc.Reporting? && s'.ws == Put(s, i, Reporting(s.ws[i].pc.sent + 1))
    ensures s'.main == s.main && s'.tokens == s.tokens && s'.pool == s.pool && s'.made == s.made
    ensures s'.captured == s.captured && s'.db == s.db && s'.aborted == s.aborted
  {
    hide Signals;
  }

  lemma ReportConns(cfg: Config, s: State, s': State, i: nat)
    requires Counting(cfg, s) && Exclusive(s)
    requires i < |s.ws| && s.ws[i].pc.Reporting? && s'.ws == Put(s, i, Reporting(s.ws[i].pc.sent + 1))
    requires s'.tokens == s.tokens && s'.pool == s.pool && s'.made == s.made
    ensures Counting(cfg, s') && Exclusive(s')
  {
    PutCounts(cfg, s, i, s.ws[i].(pc := Reporting(s.ws[i].pc.sent + 1)));
    hide Sum;
  }

  lemma ReportStarted(cfg: Config, s: State, s': State, i: nat)
    requires Started(cfg, s) && Summed(cfg, s) && i < |s.ws| && Report(cfg, s, s', i)
    ensures Started(cfg, s') && Summed(cfg, s')
  {
    hide Signals;
  }

  lemma ReportAccounted(cfg: Config, s: State, s': State, i: nat)
    requires AllAccounted(cfg, s) && i < |s.ws| && Report(cfg, s, s', i)
    ensures AllAccounted(cfg, s')
  {
    ReportAccountedFor(cfg, s, s', i, MapRet);
    ReportAccountedFor(cfg, s, s', i, SetDone);
    ReportAccountedFor(cfg, s, s', i, GetDone);
    ReportAccountedFor(cfg, s, s', i, RetInt);
  }

  lemma ReportAccountedFor(cfg: Config, s: State, s': State, i: nat, signal: Signal)
    requires Accounted(cfg, s, signal) && i < |s.ws| && Report(cfg, s, s', i)
    ensures Accounted(cfg, s', signal)
  {
    var w := s.ws[i];
    OwesNext(cfg, w, signal);
    SumUpdate(cfg, Unsent(signal), s.ws, i, w.(pc := Reporting(w.pc.sent + 1)));
    ReportShape(cfg, s, s', i);
    ReportChannel(cfg, s, s', i, signal);
    hide Sum, Owes, Signals, Report, InChannel, Unstarted, Received;
    assert Received(cfg, s', signal) == Received(cfg, s, signal)
           && Unstarted(cfg, s', Sender(signal)) == Unstarted(cfg, s, Sender(signal)) by {
      SameProgress(cfg, s, s', signal);
    }
  }

  lemma SameProgress(cfg: Config, s: State, s': State, signal: Signal)
    requires s'.main == s.main && s'.captured == s.captured && |s'.ws| == |s.ws|
    ensures Received(cfg, s', signal) == Received(cfg, s, signal)
    ensures forall kind :: Unstarted(cfg, s', kind) == Unstarted(cfg, s, kind)
  {
  }

  lemma ReportChannel(cfg: Config, s: State, s': State, i: nat, signal: Signal)
    requires i < |s.ws| && Report(cfg, s, s', i)
    ensures var sending := Signals(cfg, s.ws[i].kind)[s.ws[i].pc.sent];
            InChannel(s', signal) == InChannel(s, signal) + if signal == sending then 1 else 0
  {
    hide Signals;
  }

  lemma SpawnKeeps(cfg: Config, s: State, s': State)
    requires Inv(cfg, s) && Spawn(cfg, s, s')
    ensures Inv(cfg, s')
  {
    if |s'.ws| > |s.ws| {
      SpawnOneKeeps(cfg, s, s', s'.ws[|s.ws|]);
      hide Inv;
    } else {
      SpawnedAll(cfg, s, s');
      hide Inv;
    }
  }

  lemma SpawnedAll(cfg: Config, s: State, s': State)
    requires Inv(cfg, s) && Spawn(cfg, s, s') && s'.ws == s.ws
    ensures Inv(cfg, s')
  {
    hide Sum, Total;
  }

  lemma SpawnOneKeeps(cfg: Config, s: State, s': State, w: Worker)
    requires Inv(cfg, s) && Spawn(cfg, s, s') && s'.ws == s.ws + [w] && s'.main == s.main
    ensures Inv(cfg, s')
  {
    SpawnStarted(cfg, s, s', w);
    SpawnAccounted(cfg, s, s', w);
    SpawnConns(cfg, s, s', w);
    SpawnTally(cfg, s, s', w);
    hide Counting, Exclusive, Started, AllAccounted, Tally;
  }

  lemma SpawnTally(cfg: Config, s: State, s': State, w: Worker)
    requires Tally(cfg, s) && w.pc == Waiting && s' == s.(ws := s.ws + [w])
    ensures Tally(cfg, s')
  {
    SumAppend(cfg, UnsentSize, s.ws, w);
    SumAppend(cfg, CheckSize, s.ws, w);
    hide Sum, Total;
  }

  lemma SpawnConns(cfg: Config, s: State, s': State, w: Worker)
    requires Counting(cfg, s) && Exclusive(s) && w.pc == Waiting && s' == s.(ws := s.ws + [w])
    ensures Counting(cfg, s') && Exclusive(s')
  {
    SumAppend(cfg, Locks, s.ws, w);
    SumAppend(cfg, Conns, s.ws, w);
    SumAppend(cfg, Connecting, s.ws, w);
    hide Sum;
  }

  lemma SpawnAccounted(cfg: Config, s: State, s': State, w: Worker)
    requires Started(cfg, s) && AllAccounted(cfg, s) && Spawn(cfg, s, s') && s'.ws == s.ws + [w] && s'.main == s.main
    ensures AllAccounted(cfg, s')
  {
    SpawnStarted(cfg, s, s', w);
    assert s'.ws[|s.ws|] == w;
    assert w.pc == Waiting && (w.kind == Insert <==> s.main.SpawnInserts?);
    SpawnAccountedFor(cfg, s, s', w, MapRet);
    SpawnAccountedFor(cfg, s, s', w, SetDone);
    SpawnAccountedFor(cfg, s, s', w, GetDone);
    SpawnAccountedFor(cfg, s, s', w, RetInt);
    hide Started, Accounted;
  }

  lemma SpawnAccountedFor(cfg: Config, s: State, s': State, w: Worker, signal: Signal)
    requires Accounted(cfg, s, signal) && s' == s.(ws := s.ws + [w]) && w.pc == Waiting
    requires w.kind == (if |s.ws| < cfg.rounds then Insert else Check) && |s.ws| < 2 * cfg.rounds
    ensures Accounted(cfg, s', signal)
  {
    SumAppend(cfg, Unsent(signal), s.ws, w);
    hide Sum;
  }

  lemma SpawnStarted(cfg: Config, s: State, s': State, w: Worker)
    requires Started(cfg, s) && Spawn(cfg, s, s') && s'.ws == s.ws + [w] && s'.main == s.main
    ensures Started(cfg, s')
    ensures cfg.rounds <= |s.ws| <==> s.main.SpawnChecks?
  {
    SpawnOk(cfg, s, s', w);
    hide WorkerOk, NewCheck, NewInsert;
  }

  /** The new worker. */
  lemma SpawnOk(cfg: Config, s: State, s': State, w: Worker)
    requires Started(cfg, s) && Spawn(cfg, s, s') && s'.ws == s.ws + [w]
    ensures w.pc == Waiting && w.size <= Items(cfg) && s'.main == s.main && WorkerOk(cfg, |s.ws|, w)
    ensures s.main.SpawnInserts? ==> w == NewInsert(cfg)
    ensures s.main.SpawnChecks? ==> |s.ws| >= cfg.rounds && w == NewCheck(cfg, s.captured, |s.ws| - cfg.rounds)
  {
    assert s'.ws[|s.ws|] == w;
    if s.main.SpawnChecks? {
      var k := |s.ws| - cfg.rounds;
      NumberedHas(k, Items(cfg));
      if cfg.randomize && k < |s.captured| { assert s.captured[k] in s.captured; }
    }
    hide Numbered;
  }

  lemma ReceiveKeeps(cfg: Config, s: State, s': State)
    requires Inv(cfg, s) && Receive(cfg, s, s')
    ensures Inv(cfg, s')
  {
    ReceiveStarted(cfg, s, s');
    ReceiveSummed(cfg, s, s');
    ReceiveAccounted(cfg, s, s');
    ReceiveTally(cfg, s, s');
    ReceiveConns(cfg, s, s');
    hide Counting, Exclusive, Started, Summed, AllAccounted, Tally, Receive;
  }

  lemma ReceiveConns(cfg: Config, s: State, s': State)
    requires Counting(cfg, s) && Exclusive(s) && Receive(cfg, s, s')
    ensures Counting(cfg, s') && Exclusive(s')
  {
    assert s'.ws == s.ws && s'.tokens == s.tokens && s'.pool == s.pool && s'.made == s.made;
    hide Sum, Receive;
  }

  lemma ReceiveAccounted(cfg: Config, s: State, s': State)
    requires Started(cfg, s) && AllAccounted(cfg, s) && Receive(cfg, s, s')
    ensures AllAccounted(cfg, s')
  {
    MapsBeforeChecks(cfg, s);
    ReceiveAccountedFor(cfg, s, s', MapRet);
    ReceiveAccountedFor(cfg, s, s', SetDone);
    ReceiveAccountedFor(cfg, s, s', GetDone);
    ReceiveAccountedFor(cfg, s, s', RetInt);
    hide Accounted, Started, Receive;
  }

  lemma MapsBeforeChecks(cfg: Config, s: State)
    requires Started(cfg, s)
    ensures s.main.WaitSet? ==> s.main.n == 0 || s.main.n < cfg.rounds
    ensures s.main.WaitGet? ==> s.main.n < cfg.rounds
  {
    hide WorkerOk;
  }

  lemma ReceiveAccountedFor(cfg: Config, s: State, s': State, signal: Signal)
    requires Accounted(cfg, s, signal) && Receive(cfg, s, s')
    requires s.main.WaitSet? ==> s.main.n == 0 || s.main.n < cfg.rounds
    requires s.main.WaitGet? ==> s.main.n < cfg.rounds
    requires Accounted(cfg, s, SetDone)
    ensures Accounted(cfg, s', signal)
  {
    hide Sum, SumFits;
  }

  lemma ReceiveStarted(cfg: Config, s: State, s': State)
    requires Started(cfg, s) && Receive(cfg, s, s')
    requires Accounted(cfg, s, SetDone) && Accounted(cfg, s, RetInt)
    ensures Started(cfg, s')
  {
    hide Sum;
    if s.main.WaitMaps? {
      assert s.mapRet[0] in s.mapRet;
      assert forall m :: m in s'.mapRet || m in s'.captured ==> m in s.mapRet || m in s.captured;
    }
  }

  lemma ReceiveSummed(cfg: Config, s: State, s': State)
    requires Summed(cfg, s) && Receive(cfg, s, s')
    ensures Summed(cfg, s')
  {
    hide SumFits;
    if s.main.Summing? {
      assert s.retInt[0] in s.retInt;
      assert forall v :: v in s'.retInt ==> v in s.retInt;
      var n, b := s.main.n, Items(cfg);
      assert (n + 1) * b == n * b + b;
    }
  }

  lemma ReceiveTally(cfg: Config, s: State, s': State)
    requires Tally(cfg, s) && Receive(cfg, s, s')
    ensures Tally(cfg, s')
  {
    hide Sum;
    if s.main.Summing? { TotalTail(s.retInt); }
    hide Total;
  }

  lemma StepKeeps(cfg: Config, s: State, s': State)
    requires Inv(cfg, s) && Next(cfg, s, s')
    ensures Inv(cfg, s')
  {
    hide Inv, Spawn, Receive, Lock, Select, Connect, Fail, InsertItem, CheckItem, Misread, EndWork, GiveBack, Report;
    hide Unlock;
    if Spawn(cfg, s, s') {
      SpawnKeeps(cfg, s, s');
    } else if Receive(cfg, s, s') {
      ReceiveKeeps(cfg, s, s');
    } else {
      var i: nat :| i < |s.ws| && WorkerStep(cfg, s, s', i);
      if Lock(cfg, s, s', i) { LockKeeps(cfg, s, s', i); }
      else if Select(s, s', i) { SelectKeeps(cfg, s, s', i); }
      else if Connect(s, s', i) { ConnectKeeps(cfg, s, s', i); }
      else if Fail(s, s', i) { FailKeeps(cfg, s, s', i); }
      else if InsertItem(cfg, s, s', i) { InsertItemKeeps(cfg, s, s', i); }
      else if CheckItem(s, s', i) { CheckItemKeeps(cfg, s, s', i); }
      else if Misread(s, s', i) { MisreadKeeps(cfg, s, s', i); }
      else if EndWork(s, s', i) { EndWorkKeeps(cfg, s, s', i); }
      else if GiveBack(cfg, s, s', i) { GiveBackKeeps(cfg, s, s', i); }
      else if Report(cfg, s, s', i) { ReportKeeps(cfg, s, s', i); }
      else { UnlockKeeps(cfg, s, s', i); }
    }
  }

  // ---------- whole runs ----------

  ghost predicate IsRun(cfg: Config, run: seq<State>) {
    && run != [] && run[0] == Initial(cfg)
    && forall k :: 0 <= k < |run| - 1 ==> Next(cfg, run[k], run[k + 1])
  }

  lemma {:induction false} RunKeeps(cfg: Config, run: seq<State>, k: nat)
    requires IsRun(cfg, run) && k < |run|
    ensures Inv(cfg, run[k])
  {
    hide Inv, Next;
    if k == 0 {
      InitKeeps(cfg);
    } else {
      RunKeeps(cfg, run, k - 1);
      StepKeeps(cfg, run[k - 1], run[k]);
    }
  }

  /** A worker with something to send to a channel finds room there, and one that takes its token
      back finds one. */
  ghost predicate NeverBlocks(cfg: Config, s: State, i: nat)
    requires i < |s.ws|
  {
    var w := s.ws[i];
    && (w.pc.Returning? ==> |s.pool| < cfg.parallel)
    && (w.pc.Reporting? ==>
          && w.pc.sent <= |Signals(cfg, w.kind)|
          && (w.pc.sent < |Signals(cfg, w.kind)| ==> InChannel(s, Signals(cfg, w.kind)[w.pc.sent]) < cfg.rounds)
          && s.tokens > 0)
  }

  lemma SendsFit(cfg: Config, s: State, i: nat)
    requires Inv(cfg, s) && i < |s.ws|
    ensures NeverBlocks(cfg, s, i)
  {
    var w := s.ws[i];
    SumAtLeast(cfg, Locks, s.ws, i);
    SumAtLeast(cfg, Conns, s.ws, i);
    if w.pc.Reporting? && w.pc.sent < |Signals(cfg, w.kind)| {
      var signal := Signals(cfg, w.kind)[w.pc.sent];
      OwesNext(cfg, w, signal);
      SumAtLeast(cfg, Unsent(signal), s.ws, i);
      ChannelFits(cfg, s, signal);
    }
    hide Sum, Exclusive, Summed, AllAccounted, Signals;
  }

  lemma ChannelFits(cfg: Config, s: State, signal: Signal)
    requires AllAccounted(cfg, s) && Sum(cfg, Unsent(signal), s.ws) > 0
    ensures InChannel(s, signal) < cfg.rounds
  {
    hide Sum, Received, InChannel, Unstarted;
  }

  /** Safety, in every state of every run, whatever the interleaving: existing connections and those
      being opened never exceed `parallel`; each is held by one worker or sits once in the pool, and
      none is lost; and no send blocks. */
  lemma Safety(cfg: Config, run: seq<State>, k: nat)
    requires IsRun(cfg, run) && k < |run|
    ensures run[k].made + Sum(cfg, Connecting, run[k].ws) <= cfg.parallel
    ensures Exclusive(run[k]) && run[k].made == |run[k].pool| + Sum(cfg, Conns, run[k].ws)
    ensures forall i: nat :: i < |run[k].ws| ==> NeverBlocks(cfg, run[k], i)
  {
    RunKeeps(cfg, run, k);
    forall i: nat | i < |run[k].ws| ensures NeverBlocks(cfg, run[k], i) { SendsFit(cfg, run[k], i); }
    hide Sum, Exclusive, Started, AllAccounted, Summed, NeverBlocks, IsRun;
  }

  /** The worker has sent every signal it has to send. */
  predicate Reported(cfg: Config, w: Worker) {
    w.pc == Done || w.pc == Reporting(|Signals(cfg, w.kind)|)
  }

  /** Once a check worker exists every insert worker has made all its writes. */
  lemma ChecksFollowInserts(cfg: Config, run: seq<State>, k: nat, i: nat, j: nat)
    requires IsRun(cfg, run) && k < |run| && i < |run[k].ws| && j < |run[k].ws|
    requires run[k].ws[i].kind == Insert && run[k].ws[j].kind == Check
    ensures Reported(cfg, run[k].ws[i])
  {
    RunKeeps(cfg, run, k);
    InsertsReported(cfg, run[k], i, j);
    hide IsRun, Inv;
  }

  lemma InsertsReported(cfg: Config, s: State, i: nat, j: nat)
    requires Inv(cfg, s) && i < |s.ws| && j < |s.ws| && s.ws[i].kind == Insert && s.ws[j].kind == Check
    ensures Reported(cfg, s.ws[i]) && s.setDone == 0 && !s.main.SpawnInserts? && !s.main.WaitSet? && !s.main.WaitMaps?
  {
    SumAtLeast(cfg, Unsent(SetDone), s.ws, i);
    hide Sum, Exclusive, Counting, Summed, Tally;
  }

  /** Once main has left its wait for GetDone no worker has failed. */
  lemma PastWaits(cfg: Config, s: State, i: nat)
    requires Inv(cfg, s) && (s.main.Summing? || s.main.Finished?) && i < |s.ws|
    ensures !s.ws[i].pc.Failed? && !s.ws[i].pc.Waiting?
  {
    SumAtLeast(cfg, Unsent(SetDone), s.ws, i);
    SumAtLeast(cfg, Unsent(GetDone), s.ws, i);
    hide Sum, Exclusive, Counting, Summed;
  }

  // ---------- progress ----------

  function MainRank(cfg: Config, s: State): int {
    var r := cfg.rounds;
    match s.main
    case SpawnInserts => 4 * r + 6
    case WaitSet(n) => 4 * r + 5 - n
    case WaitMaps => 3 * r + 4 - |s.captured|
    case SpawnChecks => 2 * r + 3
    case WaitGet(n) => 2 * r + 2 - n
    case Summing(n, _) => r + 1 - n
    case Finished(_, _) => 0
  }

  /** An upper bound on the steps that are left. */
  function Potential(cfg: Config, s: State): int {
    Sum(cfg, Remaining, s.ws) + (2 * cfg.rounds - |s.ws|) * (Items(cfg) + 11) + MainRank(cfg, s)
    + if s.aborted then 0 else 1
  }

  lemma PotentialIsNat(cfg: Config, s: State)
    requires Inv(cfg, s)
    ensures Potential(cfg, s) >= 0
  {
    hide Sum, Exclusive, Counting, Summed, AllAccounted;
    var left, b := 2 * cfg.rounds - |s.ws|, Items(cfg) + 11;
    assert left >= 0 && MainRank(cfg, s) >= 0;
    assert left * b >= 0;
  }

  lemma SpawnDescends(cfg: Config, s: State, s': State)
    requires Started(cfg, s) && Spawn(cfg, s, s')
    ensures Potential(cfg, s') < Potential(cfg, s)
  {
    if |s'.ws| > |s.ws| {
      var w := s'.ws[|s.ws|];
      SpawnOk(cfg, s, s', w);
      SpawnOneDescends(cfg, s, s', w);
    }
    hide Sum, Started;
  }

  lemma SpawnOneDescends(cfg: Config, s: State, s': State, w: Worker)
    requires s' == s.(ws := s.ws + [w]) && w.pc == Waiting && w.size <= Items(cfg)
    ensures Potential(cfg, s') < Potential(cfg, s)
  {
    SumAppend(cfg, Remaining, s.ws, w);
    var left, b := 2 * cfg.rounds - |s.ws|, Items(cfg) + 11;
    assert left * b == (left - 1) * b + b;
    hide Sum;
  }

  lemma ReceiveDescends(cfg: Config, s: State, s': State)
    requires Started(cfg, s) && AllAccounted(cfg, s) && Receive(cfg, s, s')
    ensures Potential(cfg, s') < Potential(cfg, s)
  {
    WaitsBounded(cfg, s, s');
    RankDrops(cfg, s, s');
    hide Sum, Started, AllAccounted, MainRank, Receive;
  }

  lemma RankDrops(cfg: Config, s: State, s': State)
    requires Receive(cfg, s, s')
    requires s.main.WaitSet? ==> s.main.n < cfg.rounds
    requires s.main.WaitMaps? ==> |s.captured| < cfg.rounds
    requires s.main.WaitGet? || s.main.Summing? ==> s.main.n < cfg.rounds
    ensures MainRank(cfg, s') < MainRank(cfg, s) && s'.ws == s.ws && s'.aborted == s.aborted
  {
    hide SumFits;
  }

  /** Main does not receive more than there is. */
  lemma WaitsBounded(cfg: Config, s: State, s': State)
    requires Started(cfg, s) && AllAccounted(cfg, s) && Receive(cfg, s, s')
    ensures s.main.WaitSet? ==> s.main.n < cfg.rounds
    ensures s.main.WaitMaps? ==> |s.captured| < cfg.rounds
    ensures s.main.WaitGet? || s.main.Summing? ==> s.main.n < cfg.rounds
  {
    hide WorkerOk, Sum, SumFits;
  }

  lemma WorkerDescends(cfg: Config, s: State, s': State, i: nat)
    requires Inv(cfg, s) && i < |s.ws| && WorkerStep(cfg, s, s', i) && !s.aborted
    ensures Potential(cfg, s') < Potential(cfg, s)
  {
    WorkerBounds(cfg, s, i);
    WorkerShape(cfg, s, s', i);
    SumUpdate(cfg, Remaining, s.ws, i, s'.ws[i]);
    SamePotential(cfg, s, s');
    hide Sum, Weight, WorkerStep, Inv, Potential;
  }

  /** Only the workers and the end of the process make a difference between the two potentials. */
  lemma SamePotential(cfg: Config, s: State, s': State)
    requires s'.main == s.main && s'.captured == s.captured && |s'.ws| == |s.ws|
    ensures Potential(cfg, s') - Potential(cfg, s) ==
            Sum(cfg, Remaining, s'.ws) - Sum(cfg, Remaining, s.ws)
            + (if s'.aborted then 0 else 1) - (if s.aborted then 0 else 1)
  {
    hide Sum;
  }

  lemma WorkerBounds(cfg: Config, s: State, i: nat)
    requires Started(cfg, s) && i < |s.ws|
    ensures s.ws[i].pc.Working? ==> s.ws[i].pc.done <= s.ws[i].size
  {
  }

  lemma ReporterNotLast(cfg: Config, s: State, s': State, i: nat)
    requires i < |s.ws| && Report(cfg, s, s', i)
    ensures s.ws[i].pc.sent < |Signals(cfg, s.ws[i].kind)| <= 2
  {
  }

  lemma ItemShape(cfg: Config, s: State, s': State, i: nat)
    requires i < |s.ws| && (InsertItem(cfg, s, s', i) || CheckItem(s, s', i))
    ensures s' == s.(ws := s'.ws, db := s'.db) && |s'.ws| == |s.ws| && s'.ws == s.ws[i := s'.ws[i]]
    ensures s.ws[i].pc.Working? && s.ws[i].pc.done < s.ws[i].size
    ensures s'.ws[i].size == s.ws[i].size && s'.ws[i].pc == Working(s.ws[i].pc.conn, s.ws[i].pc.done + 1)
  {
    var w := s.ws[i];
    if InsertItem(cfg, s, s', i) {
      var key, val :| s' == s.(ws := s.ws[i := Inserted(w, key, val)], db := s.db[key := val]);
      assert s'.ws[i] == Inserted(w, key, val);
    } else {
      var key :| s' == s.(ws := s.ws[i := Checked(w, key)]);
      assert s'.ws[i] == Checked(w, key);
    }
  }

  lemma WorkerShape(cfg: Config, s: State, s': State, i: nat)
    requires i < |s.ws| && WorkerStep(cfg, s, s', i) && !s.aborted
    requires s.ws[i].pc.Working? ==> s.ws[i].pc.done <= s.ws[i].size
    ensures s'.main == s.main && s'.captured == s.captured && |s'.ws| == |s.ws| && s'.ws == s.ws[i := s'.ws[i]]
    ensures if s'.aborted then s'.ws == s.ws
            else Weight(cfg, Remaining, s'.ws[i]) < Weight(cfg, Remaining, s.ws[i])
  {
    if Report(cfg, s, s', i) {
      ReportShape(cfg, s, s', i);
      ReporterNotLast(cfg, s, s', i);
    } else if InsertItem(cfg, s, s', i) || CheckItem(s, s', i) {
      ItemShape(cfg, s, s', i);
      hide InsertItem, CheckItem;
    }
    hide Report, Signals;
  }

  /** Every step of every goroutine uses up potential. */
  lemma Descends(cfg: Config, s: State, s': State)
    requires Inv(cfg, s) && Next(cfg, s, s')
    ensures Potential(cfg, s') < Potential(cfg, s)
  {
    if Spawn(cfg, s, s') {
      SpawnDescends(cfg, s, s');
    } else if Receive(cfg, s, s') {
      ReceiveDescends(cfg, s, s');
    } else {
      var i: nat :| i < |s.ws| && WorkerStep(cfg, s, s', i);
      WorkerDescends(cfg, s, s', i);
    }
    hide Spawn, Receive, WorkerStep, Potential, Sum, Exclusive, Counting, Summed, AllAccounted, Started;
  }

  /** No run goes on for ever. */
  lemma RunsEnd(cfg: Config, run: seq<State>)
    requires IsRun(cfg, run)
    ensures |run| <= 2 * cfg.rounds * (Items(cfg) + 11) + 4 * cfg.rounds + 8
  {
    PotentialAfter(cfg, run, |run| - 1);
    RunKeeps(cfg, run, |run| - 1);
    PotentialIsNat(cfg, run[|run| - 1]);
    PotentialAtStart(cfg);
    hide Inv, Potential, IsRun;
  }

  lemma PotentialAtStart(cfg: Config)
    ensures Potential(cfg, Initial(cfg)) == 2 * cfg.rounds * (Items(cfg) + 11) + 4 * cfg.rounds + 7
  {
  }

  lemma {:induction false} PotentialAfter(cfg: Config, run: seq<State>, k: nat)
    requires IsRun(cfg, run) && k < |run|
    ensures Potential(cfg, run[k]) + k <= Potential(cfg, Initial(cfg))
  {
    hide Inv, Potential, Next;
    if k > 0 {
      PotentialAfter(cfg, run, k - 1);
      RunKeeps(cfg, run, k - 1);
      Descends(cfg, run[k - 1], run[k]);
    }
  }
}
