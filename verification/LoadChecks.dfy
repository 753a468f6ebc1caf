/** What the load client writes and reads back (client/main.go:109-193, 199-325), and when a run of it
    comes to its end (client/main.go:346-357). */
module LoadChecks {
  import opened Wrappers
  import opened LoadRun

  // ---------- invariants on the data ----------

  /** Insert worker j has set key k last. */
  predicate HoldsAs(s: State, j: int, k: Text) {
    && 0 <= j < |s.ws| && s.ws[j].kind == Insert
    && k in s.ws[j].data && k in s.db && s.ws[j].data[k] == s.db[k]
  }

  /** What a round has set is in the database, as that round or another one has set it. */
  ghost predicate Kept(s: State) {
    forall i, k :: 0 <= i < |s.ws| && s.ws[i].kind == Insert && k in s.ws[i].data ==> exists j :: HoldsAs(s, j, k)
  }

  /** Insert worker j has handed in m as its testmap. */
  predicate HandedIn(cfg: Config, s: State, j: int, m: Data) {
    0 <= j < |s.ws| && s.ws[j].kind == Insert && !Owes(cfg, s.ws[j], MapRet) && s.ws[j].data == m
  }

  /** Every testmap that has been handed in is in the channel or captured, and nothing else is. */
  ghost predicate Delivered(cfg: Config, s: State) {
    cfg.randomize ==>
      && (forall i :: 0 <= i < |s.ws| && s.ws[i].kind == Insert && !Owes(cfg, s.ws[i], MapRet) ==>
            s.ws[i].data in s.mapRet || s.ws[i].data in s.captured)
      && forall m :: m in s.mapRet || m in s.captured ==> exists j :: HandedIn(cfg, s, j, m)
  }

  /** An upcounting insert worker has set its numbers so far. */
  predicate InsertOk(cfg: Config, i: nat, w: Worker) {
    w.kind == Insert && !cfg.randomize ==> w.data == Numbered(i, Written(w))
  }

  /** A check worker has its captured map, or its numbers, and all it has read was right. */
  ghost predicate CheckOk(cfg: Config, captured: seq<Data>, db: Data, i: nat, w: Worker) {
    w.kind == Check ==>
      && i >= cfg.rounds && w.data == CheckData(cfg, captured, i - cfg.rounds)
      && (forall k :: k in w.seen ==> Right(db, w, k))
      && match w.pc
         case Working(_, done) => |w.seen| == done
         case Returning(_) => w.seen == w.data.Keys
         case Reporting(_) => w.seen == w.data.Keys
         case Done => w.seen == w.data.Keys
         case _ => w.seen == {}
  }

  ghost predicate Workers(cfg: Config, s: State) {
    forall i :: 0 <= i < |s.ws| ==> InsertOk(cfg, i, s.ws[i]) && CheckOk(cfg, s.captured, s.db, i, s.ws[i])
  }

  /** A check worker reads something else under key k than it expects. */
  predicate Wrong(s: State, i: int, k: Text) {
    0 <= i < |s.ws| && s.ws[i].kind == Check && k in s.ws[i].data && !Right(s.db, s.ws[i], k)
  }

  ghost predicate DataInv(cfg: Config, s: State) {
    Kept(s) && Delivered(cfg, s) && Workers(cfg, s) && (s.aborted ==> exists i, k :: Wrong(s, i, k))
  }

  // ---------- preservation ----------

  lemma InitData(cfg: Config)
    ensures DataInv(cfg, Initial(cfg))
  {
  }

  /** Worker i only moves on. */
  ghost predicate Moves(s: State, s': State, i: nat, pc: Pc)
    requires i < |s.ws|
  {
    s'.ws == Put(s, i, pc) && s'.db == s.db && s'.captured == s.captured && s'.aborted == s.aborted
  }

  lemma CarryKept(s: State, s': State)
    requires Kept(s) && forall j, k :: HoldsAs(s, j, k) ==> HoldsAs(s', j, k)
    requires forall a, k :: 0 <= a < |s'.ws| && s'.ws[a].kind == Insert && k in s'.ws[a].data ==>
               a < |s.ws| && s.ws[a].kind == Insert && k in s.ws[a].data
    ensures Kept(s')
  {
    forall a, k | 0 <= a < |s'.ws| && s'.ws[a].kind == Insert && k in s'.ws[a].data
      ensures exists j :: HoldsAs(s', j, k)
    {
      var j :| HoldsAs(s, j, k);
      assert HoldsAs(s', j, k);
    }
  }

  lemma CarryHanded(cfg: Config, s: State, s': State)
    requires forall m :: m in s.mapRet || m in s.captured ==> exists j :: HandedIn(cfg, s, j, m)
    requires forall j, m :: HandedIn(cfg, s, j, m) ==> HandedIn(cfg, s', j, m)
    requires forall m :: m in s'.mapRet || m in s'.captured ==> m in s.mapRet || m in s.captured
    ensures forall m :: m in s'.mapRet || m in s'.captured ==> exists j :: HandedIn(cfg, s', j, m)
  {
    forall m | m in s'.mapRet || m in s'.captured ensures exists j :: HandedIn(cfg, s', j, m) {
      var j :| HandedIn(cfg, s, j, m);
      assert HandedIn(cfg, s', j, m);
    }
  }

  lemma MoveKeeps(s: State, s': State, i: nat, pc: Pc)
    requires Kept(s) && i < |s.ws| && Moves(s, s', i, pc)
    ensures Kept(s')
  {
    CarryKept(s, s');
  }

  lemma MoveDelivered(cfg: Config, s: State, s': State, i: nat, pc: Pc)
    requires Delivered(cfg, s) && i < |s.ws| && Moves(s, s', i, pc)
    requires Owes(cfg, s.ws[i].(pc := pc), MapRet) ==> Owes(cfg, s.ws[i], MapRet)
    requires if s.ws[i].kind == Insert && Owes(cfg, s.ws[i], MapRet) && !Owes(cfg, s.ws[i].(pc := pc), MapRet)
             then s'.mapRet == s.mapRet + [s.ws[i].data] else s'.mapRet == s.mapRet
    ensures Delivered(cfg, s')
  {
    hide Owes;
    if cfg.randomize {
      forall m | m in s'.mapRet || m in s'.captured ensures exists j :: HandedIn(cfg, s', j, m) {
        if m in s.mapRet || m in s.captured {
          var j :| HandedIn(cfg, s, j, m);
          assert HandedIn(cfg, s', j, m);
        } else {
          assert HandedIn(cfg, s', i, m);
        }
      }
    }
  }

  lemma MoveWorkers(cfg: Config, s: State, s': State, i: nat, pc: Pc)
    requires Workers(cfg, s) && i < |s.ws| && Moves(s, s', i, pc)
    requires InsertOk(cfg, i, s.ws[i].(pc := pc)) && CheckOk(cfg, s.captured, s.db, i, s.ws[i].(pc := pc))
    ensures Workers(cfg, s')
  {
    hide InsertOk, CheckOk;
  }

  /** Steps that only move a worker on, before or after its work or within its reports. */
  lemma QuietMove(cfg: Config, s: State, s': State, i: nat, pc: Pc)
    requires DataInv(cfg, s) && !s.aborted && i < |s.ws| && Moves(s, s', i, pc) && s'.mapRet == s.mapRet
    requires Owes(cfg, s.ws[i].(pc := pc), MapRet) == Owes(cfg, s.ws[i], MapRet)
    requires InsertOk(cfg, i, s.ws[i].(pc := pc)) && CheckOk(cfg, s.captured, s.db, i, s.ws[i].(pc := pc))
    ensures DataInv(cfg, s')
  {
    MoveKeeps(s, s', i, pc);
    MoveDelivered(cfg, s, s', i, pc);
    MoveWorkers(cfg, s, s', i, pc);
    hide Kept, Delivered, Workers, Owes, InsertOk, CheckOk, Moves;
    assert s'.aborted == s.aborted by { assert Moves(s, s', i, pc); }
  }

  /** Getting a slot and a connection. */
  lemma OpeningData(cfg: Config, s: State, s': State, i: nat)
    requires DataInv(cfg, s) && !s.aborted && i < |s.ws|
    requires Lock(cfg, s, s', i) || Select(s, s', i) || Connect(s, s', i) || Fail(s, s', i)
    ensures DataInv(cfg, s')
  {
    hide Kept, Delivered, Numbered, CheckData;
    QuietMove(cfg, s, s', i, s'.ws[i].pc);
  }

  /** Giving the connection and the slot back. */
  lemma ClosingData(cfg: Config, s: State, s': State, i: nat)
    requires DataInv(cfg, s) && !s.aborted && i < |s.ws|
    requires GiveBack(cfg, s, s', i) || Unlock(cfg, s, s', i)
    ensures DataInv(cfg, s')
  {
    hide Kept, Delivered, Numbered, CheckData;
    if Unlock(cfg, s, s', i) {
      var all := Signals(cfg, s.ws[i].kind);
      assert all[..|all|] == all;
    }
    QuietMove(cfg, s, s', i, s'.ws[i].pc);
  }

  /** All items are done: whatever the worker had to read it has read. */
  lemma EndWorkData(cfg: Config, s: State, s': State, i: nat)
    requires Inv(cfg, s) && DataInv(cfg, s) && !s.aborted && i < |s.ws| && EndWork(s, s', i)
    ensures DataInv(cfg, s')
  {
    WorkerIsOk(cfg, s, i);
    EndWorkOk(cfg, s, i);
    var pc := Returning(s.ws[i].pc.conn);
    QuietMove(cfg, s, s', i, pc);
    hide Inv, DataInv, InsertOk, CheckOk, WorkerOk;
  }

  lemma EndWorkOk(cfg: Config, s: State, i: nat)
    requires Workers(cfg, s) && i < |s.ws| && WorkerOk(cfg, i, s.ws[i])
    requires s.ws[i].pc.Working? && s.ws[i].pc.done >= s.ws[i].size
    ensures var w := s.ws[i].(pc := Returning(s.ws[i].pc.conn));
            InsertOk(cfg, i, w) && CheckOk(cfg, s.captured, s.db, i, w)
  {
    var w := s.ws[i];
    hide Numbered, CheckData;
    assert InsertOk(cfg, i, w) && CheckOk(cfg, s.captured, s.db, i, w);
    if w.kind == Check {
      SeenAreKeys(w);
      AllSeen(w);
    }
  }

  lemma SeenAreKeys(w: Worker)
    requires forall k :: k in w.seen ==> k in w.data
    ensures w.seen <= w.data.Keys
  {
  }

  lemma AllSeen(w: Worker)
    requires w.seen <= w.data.Keys && |w.seen| >= |w.data|
    ensures w.seen == w.data.Keys
  {
    SubsetSize(w.seen, w.data.Keys);
  }

  lemma ReportData(cfg: Config, s: State, s': State, i: nat)
    requires DataInv(cfg, s) && !s.aborted && i < |s.ws| && Report(cfg, s, s', i)
    ensures DataInv(cfg, s')
  {
    var pc := Reporting(s.ws[i].pc.sent + 1);
    ReportShape(cfg, s, s', i);
    ReportHandsIn(cfg, s, s', i);
    MoveKeeps(s, s', i, pc);
    MoveDelivered(cfg, s, s', i, pc);
    MovedReport(cfg, s, i);
    MoveWorkers(cfg, s, s', i, pc);
    hide Kept, Delivered, Workers, Owes, Report, InsertOk, CheckOk;
  }

  lemma MovedReport(cfg: Config, s: State, i: nat)
    requires Workers(cfg, s) && i < |s.ws| && s.ws[i].pc.Reporting?
    ensures var w := s.ws[i].(pc := Reporting(s.ws[i].pc.sent + 1));
            InsertOk(cfg, i, w) && CheckOk(cfg, s.captured, s.db, i, w)
  {
    hide Numbered, CheckData;
    assert InsertOk(cfg, i, s.ws[i]) && CheckOk(cfg, s.captured, s.db, i, s.ws[i]);
  }

  lemma ReportHandsIn(cfg: Config, s: State, s': State, i: nat)
    requires i < |s.ws| && Report(cfg, s, s', i)
    ensures var w := s.ws[i];
            var w' := w.(pc := Reporting(w.pc.sent + 1));
            && (Owes(cfg, w', MapRet) ==> Owes(cfg, w, MapRet))
            && s'.mapRet == if w.kind == Insert && Owes(cfg, w, MapRet) && !Owes(cfg, w', MapRet)
                            then s.mapRet + [w.data] else s.mapRet
  {
    OwesNext(cfg, s.ws[i], MapRet);
    hide Owes;
  }

  /** While an insert worker is at work there is no check worker. */
  lemma InsertItemData(cfg: Config, s: State, s': State, i: nat)
    requires Inv(cfg, s) && DataInv(cfg, s) && !s.aborted && i < |s.ws| && InsertItem(cfg, s, s', i)
    ensures DataInv(cfg, s')
  {
    var w := s.ws[i];
    var key, val :| MayDraw(cfg, i, w.pc.done, key, val)
                    && s' == s.(ws := s.ws[i := Inserted(w, key, val)], db := s.db[key := val]);
    forall j: nat | j < |s.ws| ensures s.ws[j].kind == Insert {
      if s.ws[j].kind == Check { InsertsReported(cfg, s, i, j); }
    }
    hide Inv;
    InsertKeeps(s, s', i, key, val);
    InsertDelivered(cfg, s, s', i, key, val);
    InsertWorkers(cfg, s, s', i, key, val);
    hide Kept, Delivered, Workers;
  }

  lemma InsertKeeps(s: State, s': State, i: nat, key: Text, val: Text)
    requires Kept(s) && i < |s.ws| && s.ws[i].kind == Insert && s.ws[i].pc.Working?
    requires s' == s.(ws := s.ws[i := Inserted(s.ws[i], key, val)], db := s.db[key := val])
    ensures Kept(s')
  {
    forall a, k | 0 <= a < |s'.ws| && s'.ws[a].kind == Insert && k in s'.ws[a].data
      ensures exists j :: HoldsAs(s', j, k)
    {
      if k == key {
        assert HoldsAs(s', i, k);
      } else {
        assert k in s.ws[a].data;
        var j :| HoldsAs(s, j, k);
        assert HoldsAs(s', j, k);
      }
    }
  }

  lemma InsertDelivered(cfg: Config, s: State, s': State, i: nat, key: Text, val: Text)
    requires Delivered(cfg, s) && i < |s.ws| && s.ws[i].kind == Insert && s.ws[i].pc.Working?
    requires s' == s.(ws := s.ws[i := Inserted(s.ws[i], key, val)], db := s.db[key := val])
    ensures Delivered(cfg, s')
  {
    if cfg.randomize {
      assert Owes(cfg, s.ws[i], MapRet) && Owes(cfg, s'.ws[i], MapRet);
      hide Owes;
      CarryHanded(cfg, s, s');
    }
  }

  lemma InsertWorkers(cfg: Config, s: State, s': State, i: nat, key: Text, val: Text)
    requires Workers(cfg, s) && i < |s.ws| && s.ws[i].pc.Working? && MayDraw(cfg, i, s.ws[i].pc.done, key, val)
    requires s' == s.(ws := s.ws[i := Inserted(s.ws[i], key, val)], db := s.db[key := val])
    requires forall j :: 0 <= j < |s.ws| ==> s.ws[j].kind == Insert
    ensures Workers(cfg, s')
  {
    assert InsertOk(cfg, i, s.ws[i]);
    assert InsertOk(cfg, i, s'.ws[i]);
    hide InsertOk;
  }

  lemma CheckItemData(cfg: Config, s: State, s': State, i: nat)
    requires DataInv(cfg, s) && !s.aborted && i < |s.ws| && CheckItem(s, s', i)
    ensures DataInv(cfg, s')
  {
    var key :| key in s.ws[i].data && key !in s.ws[i].seen && Right(s.db, s.ws[i], key)
               && s' == s.(ws := s.ws[i := Checked(s.ws[i], key)]);
    CheckKeeps(cfg, s, s', i, key);
    assert CheckOk(cfg, s.captured, s.db, i, s.ws[i]);
    assert CheckOk(cfg, s'.captured, s'.db, i, s'.ws[i]) by { hide CheckData, Kept, Delivered; }
    hide Kept, Delivered, InsertOk, CheckOk;
  }

  lemma CheckKeeps(cfg: Config, s: State, s': State, i: nat, key: Text)
    requires Kept(s) && Delivered(cfg, s) && i < |s.ws| && s.ws[i].kind == Check && s.ws[i].pc.Working?
    requires s' == s.(ws := s.ws[i := Checked(s.ws[i], key)])
    ensures Kept(s') && Delivered(cfg, s') && InsertOk(cfg, i, s'.ws[i])
  {
    hide Owes, Numbered;
    CarryKept(s, s');
    if cfg.randomize { CarryHanded(cfg, s, s'); }
  }

  lemma MisreadData(cfg: Config, s: State, s': State, i: nat)
    requires DataInv(cfg, s) && i < |s.ws| && Misread(s, s', i)
    ensures DataInv(cfg, s')
  {
    var key :| key in s.ws[i].data && key !in s.ws[i].seen && !Right(s.db, s.ws[i], key);
    assert Wrong(s', i, key);
    SameData(cfg, s, s');
    hide Kept, Delivered, Workers;
  }

  lemma SameData(cfg: Config, s: State, s': State)
    requires s'.ws == s.ws && s'.db == s.db && s'.captured == s.captured && s'.mapRet == s.mapRet
    ensures Kept(s) ==> Kept(s')
    ensures Delivered(cfg, s) ==> Delivered(cfg, s')
    ensures Workers(cfg, s) ==> Workers(cfg, s')
  {
    hide Owes, InsertOk, CheckOk;
    if Kept(s) { CarryKept(s, s'); }
    if Delivered(cfg, s) && cfg.randomize { CarryHanded(cfg, s, s'); }
  }

  lemma SpawnData(cfg: Config, s: State, s': State)
    requires Inv(cfg, s) && DataInv(cfg, s) && !s.aborted && Spawn(cfg, s, s')
    ensures DataInv(cfg, s')
  {
    if |s'.ws| > |s.ws| {
      var w := s'.ws[|s.ws|];
      SpawnOk(cfg, s, s', w);
      NewWorker(cfg, s, s', w);
      hide Inv, Kept, Delivered, Workers;
    } else {
      SameData(cfg, s, s');
      hide Inv, Kept, Delivered, Workers;
    }
  }

  lemma NewWorker(cfg: Config, s: State, s': State, w: Worker)
    requires Kept(s) && Delivered(cfg, s) && Workers(cfg, s) && s' == s.(ws := s.ws + [w])
    requires w == NewInsert(cfg) || (|s.ws| >= cfg.rounds && w == NewCheck(cfg, s.captured, |s.ws| - cfg.rounds))
    ensures Kept(s') && Delivered(cfg, s') && Workers(cfg, s')
  {
    assert InsertOk(cfg, |s.ws|, w) && CheckOk(cfg, s.captured, s.db, |s.ws|, w) by { hide CheckData; }
    assert cfg.randomize && w.kind == Insert ==> Owes(cfg, w, MapRet);
    assert w.kind == Insert ==> w.data == map[];
    hide Owes, InsertOk, CheckOk, NewInsert, NewCheck;
    CarryKept(s, s');
    if cfg.randomize { CarryHanded(cfg, s, s'); }
  }

  lemma ReceiveData(cfg: Config, s: State, s': State)
    requires Inv(cfg, s) && DataInv(cfg, s) && !s.aborted && Receive(cfg, s, s')
    ensures DataInv(cfg, s')
  {
    if s.main.WaitMaps? {
      NoChecksYet(cfg, s);
      hide Inv;
      CaptureData(cfg, s, s');
      hide Kept, Delivered, Workers;
    } else {
      SameData(cfg, s, s');
      hide Inv, Kept, Delivered, Workers;
    }
  }

  lemma NoChecksYet(cfg: Config, s: State)
    requires Inv(cfg, s) && s.main.WaitMaps?
    ensures forall i :: 0 <= i < |s.ws| ==> s.ws[i].kind == Insert
  {
    forall i | 0 <= i < |s.ws| ensures s.ws[i].kind == Insert { WorkerIsOk(cfg, s, i); }
    hide Counting, Exclusive, AllAccounted, Summed, Tally;
  }

  lemma CaptureData(cfg: Config, s: State, s': State)
    requires DataInv(cfg, s) && !s.aborted && Receive(cfg, s, s') && s.main.WaitMaps?
    requires forall i :: 0 <= i < |s.ws| ==> s.ws[i].kind == Insert
    ensures DataInv(cfg, s')
  {
    hide Owes, InsertOk;
    assert s.mapRet == [s.mapRet[0]] + s.mapRet[1..];
    assert forall m :: m in s.mapRet || m in s.captured <==> m in s'.mapRet || m in s'.captured;
    assert Workers(cfg, s');
    CarryKept(s, s');
    if cfg.randomize { CarryHanded(cfg, s, s'); }
  }

  lemma StepData(cfg: Config, s: State, s': State)
    requires Inv(cfg, s) && DataInv(cfg, s) && Next(cfg, s, s')
    ensures DataInv(cfg, s')
  {
    hide Inv, DataInv, Spawn, Receive, Lock, Select, Connect, Fail, InsertItem, CheckItem, Misread, EndWork, GiveBack;
    hide Report, Unlock;
    if Spawn(cfg, s, s') {
      SpawnData(cfg, s, s');
    } else if Receive(cfg, s, s') {
      ReceiveData(cfg, s, s');
    } else {
      var i: nat :| i < |s.ws| && WorkerStep(cfg, s, s', i);
      if InsertItem(cfg, s, s', i) { InsertItemData(cfg, s, s', i); }
      else if CheckItem(s, s', i) { CheckItemData(cfg, s, s', i); }
      else if Misread(s, s', i) { MisreadData(cfg, s, s', i); }
      else if EndWork(s, s', i) { EndWorkData(cfg, s, s', i); }
      else if Report(cfg, s, s', i) { ReportData(cfg, s, s', i); }
      else if GiveBack(cfg, s, s', i) || Unlock(cfg, s, s', i) { ClosingData(cfg, s, s', i); }
      else { OpeningData(cfg, s, s', i); }
    }
  }

  lemma {:induction false} RunData(cfg: Config, run: seq<State>, k: nat)
    requires IsRun(cfg, run) && k < |run|
    ensures DataInv(cfg, run[k])
  {
    hide Inv, DataInv, Next;
    if k == 0 {
      InitData(cfg);
    } else {
      RunData(cfg, run, k - 1);
      RunKeeps(cfg, run, k - 1);
      StepData(cfg, run[k - 1], run[k]);
    }
  }

  // ---------- reads ----------

  /** No captured map has lost an item to two equal keys within its round. */
  predicate NoneLost(cfg: Config, s: State) {
    forall a :: 0 <= a < |s.captured| ==> |s.captured[a]| == Items(cfg)
  }

  /** No two captured maps have different values under one key. */
  predicate Agree(s: State) {
    forall a, b, k :: 0 <= a < b < |s.captured| && k in s.captured[a] && k in s.captured[b] ==>
      s.captured[a][k] == s.captured[b][k]
  }

  /** Once there is a check worker every round has written all it writes, and in the random mode main has
      captured every testmap. */
  lemma InsertsDone(cfg: Config, s: State, i: nat, c: nat)
    requires Inv(cfg, s) && i < |s.ws| && c < |s.ws| && s.ws[i].kind == Insert && s.ws[c].kind == Check
    ensures s.ws[i].size == Items(cfg) == Written(s.ws[i]) && !Owes(cfg, s.ws[i], MapRet)
    ensures cfg.randomize ==> |s.captured| == cfg.rounds && s.mapRet == []
    ensures cfg.rounds <= c < 2 * cfg.rounds
  {
    InsertsReported(cfg, s, i, c);
    WorkerIsOk(cfg, s, i);
    WorkerIsOk(cfg, s, c);
    AllCaptured(cfg, s);
    var all := Signals(cfg, Insert);
    assert all[..|all|] == all;
    hide Inv;
  }

  lemma AllCaptured(cfg: Config, s: State)
    requires Inv(cfg, s) && !s.main.SpawnInserts? && !s.main.WaitSet? && !s.main.WaitMaps?
    ensures cfg.randomize ==> |s.captured| == cfg.rounds && s.mapRet == []
    ensures |s.ws| <= 2 * cfg.rounds
  {
    hide Sum, WorkerOk, Counting, Exclusive, Summed, Tally;
  }

  /** What has been set under a key is, for a captured map, what a captured map says. */
  lemma StoredIsCaptured(cfg: Config, s: State, c: nat, a: nat, k: Text)
    requires Inv(cfg, s) && DataInv(cfg, s) && cfg.randomize && c < |s.ws| && s.ws[c].kind == Check
    requires a < |s.captured| && k in s.captured[a]
    ensures k in s.db && exists b :: 0 <= b < |s.captured| && k in s.captured[b] && s.captured[b][k] == s.db[k]
  {
    hide Inv, Workers;
    assert s.captured[a] in s.captured;
    var j :| HandedIn(cfg, s, j, s.captured[a]);
    assert k in s.ws[j].data;
    var j2: int :| HoldsAs(s, j2, k);
    InsertsDone(cfg, s, j2, c);
    assert s.ws[j2].data in s.captured;
    var b :| 0 <= b < |s.captured| && s.captured[b] == s.ws[j2].data;
  }

  /** A wrong read needs two rounds that have drawn one key with different values. */
  lemma WrongMeansClash(cfg: Config, s: State, i: nat, k: Text)
    requires Inv(cfg, s) && DataInv(cfg, s) && Wrong(s, i, k)
    ensures cfg.randomize && !Agree(s)
  {
    assert CheckOk(cfg, s.captured, s.db, i, s.ws[i]);
    var r := i - cfg.rounds;
    FirstInsert(cfg, s, i);
    InsertsDone(cfg, s, r, i);
    if cfg.randomize {
      StoredIsCaptured(cfg, s, i, r, k);
      hide Inv, DataInv;
      var b :| 0 <= b < |s.captured| && k in s.captured[b] && s.captured[b][k] == s.db[k];
      assert s.captured[r][k] != s.captured[b][k];
      assert r < b || b < r;
    } else {
      UpcountingRight(cfg, s, r, i, k);
    }
  }

  lemma FirstInsert(cfg: Config, s: State, i: nat)
    requires Inv(cfg, s) && i < |s.ws| && s.ws[i].kind == Check
    ensures cfg.rounds <= i < 2 * cfg.rounds && s.ws[i - cfg.rounds].kind == Insert
  {
    WorkerIsOk(cfg, s, i);
    WorkerIsOk(cfg, s, i - cfg.rounds);
    if cfg.rounds > 0 {
      WorkerIsOk(cfg, s, 0);
      InsertsReported(cfg, s, 0, i);
      AllCaptured(cfg, s);
    } else {
      NoRoundsNoWorkers(cfg, s);
    }
    hide Inv;
  }

  lemma NoRoundsNoWorkers(cfg: Config, s: State)
    requires Inv(cfg, s) && cfg.rounds == 0
    ensures s.ws == []
  {
    hide WorkerOk, Counting, Exclusive, AllAccounted, Summed, Tally;
  }

  lemma UpcountingRight(cfg: Config, s: State, r: nat, i: nat, k: Text)
    requires DataInv(cfg, s) && !cfg.randomize && r < |s.ws| && i < |s.ws| && i == r + cfg.rounds
    requires s.ws[r].kind == Insert && Written(s.ws[r]) == Items(cfg) && s.ws[i].kind == Check && k in s.ws[i].data
    ensures Right(s.db, s.ws[i], k)
  {
    assert InsertOk(cfg, r, s.ws[r]) && CheckOk(cfg, s.captured, s.db, i, s.ws[i]);
    NumberedHas(r, Items(cfg));
    hide Numbered;
    assert s.ws[r].data == Numbered(r, Items(cfg)) == s.ws[i].data;
    var j :| HoldsAs(s, j, k);
    assert InsertOk(cfg, j, s.ws[j]);
    NumberedHas(j, Written(s.ws[j]));
  }

  /** The process is ended by a wrong read only if two captured maps disagree. */
  lemma AbortMeansClash(cfg: Config, run: seq<State>, n: nat)
    requires IsRun(cfg, run) && n < |run| && run[n].aborted
    ensures cfg.randomize && !Agree(run[n])
  {
    RunKeeps(cfg, run, n);
    RunData(cfg, run, n);
    hide IsRun;
    var i, k :| Wrong(run[n], i, k);
    WrongMeansClash(cfg, run[n], i, k);
    hide Inv, DataInv;
  }

  /** In the upcounting mode no read is ever wrong. */
  lemma UpcountingNeverAborts(cfg: Config, run: seq<State>, n: nat)
    requires IsRun(cfg, run) && n < |run| && !cfg.randomize
    ensures !run[n].aborted
  {
    if run[n].aborted { AbortMeansClash(cfg, run, n); }
  }

  /** Once main has every signal the check workers have read everything, so that the captured maps agree. */
  lemma FinishedAgrees(cfg: Config, s: State)
    requires Inv(cfg, s) && DataInv(cfg, s) && s.main.Finished?
    ensures Agree(s)
  {
    forall a | 0 <= a < |s.captured|
      ensures forall k :: k in s.captured[a] ==> k in s.db && s.db[k] == s.captured[a][k]
    {
      CapturedChecked(cfg, s, a);
    }
    hide Inv, DataInv;
  }

  lemma CapturedChecked(cfg: Config, s: State, a: nat)
    requires Inv(cfg, s) && DataInv(cfg, s) && s.main.Finished? && a < |s.captured|
    ensures cfg.randomize && a < cfg.rounds && cfg.rounds + a < |s.ws| && s.ws[cfg.rounds + a].kind == Check
    ensures s.ws[cfg.rounds + a].data == s.captured[a]
    ensures forall k :: k in s.captured[a] ==> k in s.db && s.db[k] == s.captured[a][k]
  {
    var i := cfg.rounds + a;
    AllStarted(cfg, s);
    WorkerIsOk(cfg, s, i);
    ChecksReported(cfg, s, i);
    assert CheckOk(cfg, s.captured, s.db, i, s.ws[i]);
    ReadRight(cfg, s.captured, s.db, a, s.ws[i]);
    hide Inv, DataInv, CheckOk;
  }

  /** A check worker that has reported has read its whole map, and all of it was right. */
  lemma ReadRight(cfg: Config, captured: seq<Data>, db: Data, a: nat, w: Worker)
    requires CheckOk(cfg, captured, db, cfg.rounds + a, w) && w.kind == Check && (w.pc.Reporting? || w.pc.Done?)
    requires cfg.randomize && a < |captured|
    ensures w.data == captured[a] && forall k :: k in captured[a] ==> k in db && db[k] == captured[a][k]
  {
    hide Numbered;
    forall k | k in captured[a] ensures k in db && db[k] == captured[a][k] {
      assert k in w.seen;
    }
  }

  lemma AllStarted(cfg: Config, s: State)
    requires Inv(cfg, s) && s.main.Finished?
    ensures |s.ws| == 2 * cfg.rounds && cfg.rounds > 0
    ensures s.captured != [] ==> cfg.randomize && |s.captured| == cfg.rounds
  {
    hide WorkerOk, Counting, Exclusive, AllAccounted, Summed, Tally;
  }

  lemma ChecksReported(cfg: Config, s: State, i: nat)
    requires Inv(cfg, s) && s.main.Finished? && i < |s.ws| && s.ws[i].kind == Check
    ensures s.ws[i].pc.Reporting? || s.ws[i].pc.Done?
  {
    SumAtLeast(cfg, Unsent(GetDone), s.ws, i);
    hide Sum, WorkerOk, Exclusive, Counting, Summed, Tally;
  }

  /** Two rounds that have drawn one key with different values keep main from finishing, however the run
      goes on, even if each has drawn as many keys as it should. */
  lemma ClashNeverFinishes(cfg: Config, run: seq<State>, n: nat, i: nat, j: nat, k: Text)
    requires IsRun(cfg, run) && n < |run| && cfg.randomize && i < |run[n].ws| && j < |run[n].ws|
    requires run[n].ws[i].kind == Insert && run[n].ws[j].kind == Insert
    requires k in run[n].ws[i].data && k in run[n].ws[j].data && run[n].ws[i].data[k] != run[n].ws[j].data[k]
    ensures !run[n].main.Finished?
  {
    var s := run[n];
    RunKeeps(cfg, run, n);
    RunData(cfg, run, n);
    hide IsRun, Inv, DataInv, Agree;
    if s.main.Finished? {
      DataCaptured(cfg, s, i);
      DataCaptured(cfg, s, j);
      ClashDisagrees(s, s.ws[i].data, s.ws[j].data, k);
      FinishedAgrees(cfg, s);
    }
  }

  lemma DataCaptured(cfg: Config, s: State, i: nat)
    requires Inv(cfg, s) && DataInv(cfg, s) && s.main.Finished? && cfg.randomize
    requires i < |s.ws| && s.ws[i].kind == Insert
    ensures s.ws[i].data in s.captured
  {
    AllStarted(cfg, s);
    WorkerIsOk(cfg, s, cfg.rounds);
    InsertsDone(cfg, s, i, cfg.rounds);
    hide Inv, Kept, Workers;
  }

  lemma ClashDisagrees(s: State, x: Data, y: Data, k: Text)
    requires x in s.captured && y in s.captured && k in x && k in y && x[k] != y[k]
    ensures !Agree(s)
  {
    var a :| 0 <= a < |s.captured| && s.captured[a] == x;
    var b :| 0 <= b < |s.captured| && s.captured[b] == y;
    if a < b { assert s.captured[a][k] != s.captured[b][k]; } else { assert s.captured[b][k] != s.captured[a][k]; }
  }

  // ---------- progress ----------

  /** No goroutine can take a step. */
  ghost predicate Blocked(cfg: Config, s: State) {
    forall s' :: !Next(cfg, s, s')
  }

  predicate AnyFailed(s: State) {
    exists i :: 0 <= i < |s.ws| && s.ws[i].pc.Failed?
  }

  /** A worker that holds a slot can always go on. */
  lemma HolderSteps(cfg: Config, s: State, i: nat)
    requires Inv(cfg, s) && Workers(cfg, s) && i < |s.ws|
    requires !s.ws[i].pc.Waiting? && !s.ws[i].pc.Failed? && !s.ws[i].pc.Done?
    ensures exists s' :: WorkerStep(cfg, s, s', i)
  {
    SendsFit(cfg, s, i);
    hide Inv;
    match s.ws[i].pc
    case Selecting =>
      var s' := if s.pool != [] then s.(ws := Put(s, i, Working(s.pool[0], 0)), pool := s.pool[1..])
                else s.(ws := Put(s, i, Opening));
      assert WorkerStep(cfg, s, s', i);
    case Opening =>
      assert WorkerStep(cfg, s, s.(ws := Put(s, i, Working(s.made, 0)), made := s.made + 1), i);
    case Working(conn, done) =>
      WorkingSteps(cfg, s, i);
    case Returning(conn) =>
      assert WorkerStep(cfg, s, s.(ws := Put(s, i, Reporting(0)), pool := s.pool + [conn]), i);
    case Reporting(sent) =>
      ReporterSteps(cfg, s, i);
  }

  lemma WorkingSteps(cfg: Config, s: State, i: nat)
    requires Inv(cfg, s) && Workers(cfg, s) && i < |s.ws| && s.ws[i].pc.Working?
    ensures exists s' :: WorkerStep(cfg, s, s', i)
  {
    var w := s.ws[i];
    WorkerIsOk(cfg, s, i);
    hide Inv;
    if w.pc.done >= w.size {
      assert EndWork(s, s.(ws := Put(s, i, Returning(w.pc.conn))), i);
      assert WorkerStep(cfg, s, s.(ws := Put(s, i, Returning(w.pc.conn))), i);
    } else if w.kind == Insert {
      var key := if cfg.randomize then Drawn([]) else Counted(w.pc.done, i);
      var s' := s.(ws := s.ws[i := Inserted(w, key, key)], db := s.db[key := key]);
      assert MayDraw(cfg, i, w.pc.done, key, key);
      assert InsertItem(cfg, s, s', i);
      assert WorkerStep(cfg, s, s', i);
    } else {
      assert CheckOk(cfg, s.captured, s.db, i, w);
      var key := Unseen(w);
      hide CheckOk, Workers;
      if Right(s.db, w, key) {
        var s' := s.(ws := s.ws[i := Checked(w, key)]);
        assert CheckItem(s, s', i);
        assert WorkerStep(cfg, s, s', i);
      } else {
        assert Misread(s, s.(aborted := true), i);
        assert WorkerStep(cfg, s, s.(aborted := true), i);
      }
    }
  }

  lemma Unseen(w: Worker) returns (key: Text)
    requires |w.seen| < |w.data|
    ensures key in w.data && key !in w.seen
  {
    if forall k :: k in w.data ==> k in w.seen {
      SubsetSize(w.data.Keys, w.seen);
    }
    key :| key in w.data && key !in w.seen;
  }

  lemma ReporterSteps(cfg: Config, s: State, i: nat)
    requires i < |s.ws| && s.ws[i].pc.Reporting? && NeverBlocks(cfg, s, i)
    ensures exists s' :: WorkerStep(cfg, s, s', i)
  {
    var w := s.ws[i];
    var sent := w.pc.sent;
    if sent == |Signals(cfg, w.kind)| {
      assert WorkerStep(cfg, s, s.(ws := Put(s, i, Done), tokens := s.tokens - 1), i) by { hide Signals; }
    } else {
      var ws := Put(s, i, Reporting(sent + 1));
      var s' := match Signals(cfg, w.kind)[sent]
        case SetDone => s.(ws := ws, setDone := s.setDone + 1)
        case GetDone => s.(ws := ws, getDone := s.getDone + 1)
        case RetInt => s.(ws := ws, retInt := s.retInt + [w.size])
        case MapRet => s.(ws := ws, mapRet := s.mapRet + [w.data]);
      assert Report(cfg, s, s', i) by { hide Signals; }
      assert WorkerStep(cfg, s, s', i) by { hide Report; }
    }
  }

  lemma WaiterSteps(cfg: Config, s: State, i: nat)
    requires i < |s.ws| && s.ws[i].pc.Waiting? && s.tokens < cfg.parallel
    ensures exists s' :: WorkerStep(cfg, s, s', i)
  {
    assert WorkerStep(cfg, s, s.(ws := Put(s, i, Selecting), tokens := s.tokens + 1), i);
  }

  /** If nobody can go on and no connect failed, every worker has ended. */
  lemma BlockedWorkers(cfg: Config, s: State)
    requires Inv(cfg, s) && Workers(cfg, s) && cfg.parallel > 0 && !AnyFailed(s)
    requires forall i: nat, s' :: i < |s.ws| ==> !WorkerStep(cfg, s, s', i)
    ensures forall i :: 0 <= i < |s.ws| ==> s.ws[i].pc == Done
  {
    hide Inv, Workers, WorkerStep;
    forall i: nat | i < |s.ws| ensures s.ws[i].pc.Waiting? || s.ws[i].pc.Done? {
      if !s.ws[i].pc.Waiting? && !s.ws[i].pc.Done? { HolderSteps(cfg, s, i); }
    }
    SumZero(cfg, Locks, s.ws);
    assert s.tokens == 0 by { NoLocks(cfg, s); }
    forall i: nat | i < |s.ws| ensures s.ws[i].pc.Done? {
      if s.ws[i].pc.Waiting? { WaiterSteps(cfg, s, i); }
    }
  }

  lemma NoLocks(cfg: Config, s: State)
    requires Inv(cfg, s) && Sum(cfg, Locks, s.ws) == 0
    ensures s.tokens == 0
  {
    hide Sum;
  }

  /** When every worker has ended main can go on, until it has all the results. */
  lemma MainSteps(cfg: Config, s: State)
    requires Inv(cfg, s) && cfg.rounds > 0
    requires forall i :: 0 <= i < |s.ws| ==> s.ws[i].pc == Done
    requires !s.main.Finished? && !(s.main.Summing? && s.main.n == cfg.rounds)
    ensures exists s' :: Spawn(cfg, s, s') || Receive(cfg, s, s')
  {
    forall signal ensures Sum(cfg, Unsent(signal), s.ws) == 0 { SumZero(cfg, Unsent(signal), s.ws); }
    StartedMain(cfg, s);
    MainHas(cfg, s);
    hide Inv, Sum, NewInsert, NewCheck;
    match s.main
    case SpawnInserts =>
      assert Spawn(cfg, s, if |s.ws| < cfg.rounds then s.(ws := s.ws + [NewInsert(cfg)]) else s.(main := WaitSet(0)));
    case SpawnChecks =>
      var k := |s.ws| - cfg.rounds;
      assert Spawn(cfg, s, if k < cfg.rounds then s.(ws := s.ws + [NewCheck(cfg, s.captured, k)])
                           else s.(main := WaitGet(0)));
    case _ => ReceiveSteps(cfg, s);
  }

  /** What main still waits for is in its channel. */
  lemma MainHas(cfg: Config, s: State)
    requires Inv(cfg, s) && forall signal :: Sum(cfg, Unsent(signal), s.ws) == 0
    ensures s.main.WaitSet? && s.main.n < cfg.rounds ==> s.setDone > 0
    ensures s.main.WaitMaps? ==> s.mapRet != []
    ensures s.main.WaitGet? ==> s.getDone > 0
    ensures s.main.Summing? && s.main.n < cfg.rounds ==> s.retInt != []
  {
    hide Sum, WorkerOk, Counting, Exclusive, Summed, Tally;
    assert forall signal :: Accounted(cfg, s, signal) by {
      forall signal ensures Accounted(cfg, s, signal) { match signal case _ => }
    }
  }

  lemma StartedMain(cfg: Config, s: State)
    requires Started(cfg, s)
    ensures s.main.SpawnChecks? ==> |s.ws| >= cfg.rounds
    ensures s.main.WaitSet? ==> |s.ws| == cfg.rounds && (cfg.rounds > 0 ==> s.main.n < cfg.rounds)
    ensures s.main.WaitMaps? ==> |s.ws| == cfg.rounds > |s.captured| && cfg.randomize
    ensures s.main.WaitGet? ==> |s.ws| == 2 * cfg.rounds && s.main.n < cfg.rounds
    ensures s.main.Summing? ==> |s.ws| == 2 * cfg.rounds && s.main.n <= cfg.rounds
  {
    hide WorkerOk;
  }

  lemma ReceiveSteps(cfg: Config, s: State)
    requires match s.main
             case WaitSet(n) => s.setDone > 0
             case WaitMaps => s.mapRet != []
             case WaitGet(n) => s.getDone > 0
             case Summing(n, checked) => s.retInt != []
             case _ => false
    ensures exists s' :: Receive(cfg, s, s')
  {
    match s.main
    case WaitSet(n) =>
      assert Receive(cfg, s, s.(setDone := s.setDone - 1,
               main := if n + 1 != cfg.rounds then WaitSet(n + 1)
                       else if cfg.randomize then WaitMaps else SpawnChecks));
    case WaitMaps =>
      var all := s.captured + [s.mapRet[0]];
      assert Receive(cfg, s, s.(mapRet := s.mapRet[1..], captured := all,
               main := if |all| != cfg.rounds then WaitMaps else SpawnChecks));
    case WaitGet(n) =>
      assert Receive(cfg, s, s.(getDone := s.getDone - 1,
               main := if n + 1 != cfg.rounds then WaitGet(n + 1) else Summing(0, 0)));
    case Summing(n, checked) =>
      var sum := checked + s.retInt[0];
      assert Receive(cfg, s, s.(retInt := s.retInt[1..],
               main := if SumFits(cfg, sum) then Finished(n + 1, sum) else Summing(n + 1, sum)));
  }

  lemma MainNotBlocked(cfg: Config, s: State)
    requires !s.aborted && exists s' :: Spawn(cfg, s, s') || Receive(cfg, s, s')
    ensures !Blocked(cfg, s)
  {
    var s' :| Spawn(cfg, s, s') || Receive(cfg, s, s');
    assert Next(cfg, s, s');
  }

  /** The only ways a run can come to a halt without a failed connect or a wrong read: main is through, or
      it waits for one more result after it has had them all. */
  lemma Halts(cfg: Config, s: State)
    requires Inv(cfg, s) && DataInv(cfg, s) && Blocked(cfg, s)
    requires cfg.parallel > 0 && cfg.rounds > 0 && !AnyFailed(s) && !s.aborted
    ensures forall i :: 0 <= i < |s.ws| ==> s.ws[i].pc == Done
    ensures s.main.Finished? || (s.main.Summing? && s.main.n == cfg.rounds && !SumFits(cfg, s.main.checked))
  {
    hide Spawn, Receive, WorkerStep, AnyFailed, Inv, Kept, Delivered, Workers;
    forall i: nat, s' | i < |s.ws| ensures !WorkerStep(cfg, s, s', i) {
      assert !Next(cfg, s, s');
    }
    BlockedWorkers(cfg, s);
    if !s.main.Finished? && !(s.main.Summing? && s.main.n == cfg.rounds) {
      MainSteps(cfg, s);
      MainNotBlocked(cfg, s);
    }
    LastSum(cfg, s);
  }

  lemma {:induction false} NothingUnsent(cfg: Config, ws: seq<Worker>)
    requires Sum(cfg, Unsent(RetInt), ws) == 0
    ensures Sum(cfg, UnsentSize, ws) == 0
    decreases |ws|
  {
    hide Owes;
    if ws != [] { NothingUnsent(cfg, ws[..|ws| - 1]); }
  }

  /** Main has every result and has summed what the check workers had to check. */
  lemma AllSummed(cfg: Config, s: State)
    requires Inv(cfg, s) && s.main.Summing? && s.main.n == cfg.rounds
    ensures s.main.checked == Sum(cfg, CheckSize, s.ws)
  {
    hide Sum, Counting, Exclusive, Started, Summed;
    assert s.retInt == [];
    NothingUnsent(cfg, s.ws);
  }

  // ---------- completion ----------

  /** The sizes of the check workers among the first n, of which the first `rounds` are insert workers. */
  lemma {:induction false} SizesBounded(cfg: Config, ws: seq<Worker>)
    requires forall i :: 0 <= i < |ws| ==> ws[i].size <= Items(cfg) && (ws[i].kind == Insert <==> i < cfg.rounds)
    ensures var checks := if |ws| < cfg.rounds then 0 else |ws| - cfg.rounds;
            && Sum(cfg, CheckSize, ws) <= checks * Items(cfg)
            && (Sum(cfg, CheckSize, ws) == checks * Items(cfg) <==>
                  forall i :: 0 <= i < |ws| && ws[i].kind == Check ==> ws[i].size == Items(cfg))
    decreases |ws|
  {
    if ws != [] {
      var n := |ws| - 1;
      SizesBounded(cfg, ws[..n]);
      if n >= cfg.rounds {
        OneMore(n - cfg.rounds, Items(cfg));
        assert Sum(cfg, CheckSize, ws) == Sum(cfg, CheckSize, ws[..n]) + ws[n].size;
      } else {
        assert Sum(cfg, CheckSize, ws) == Sum(cfg, CheckSize, ws[..n]);
      }
    }
  }

  lemma OneMore(n: nat, b: nat)
    ensures (n + 1) * b == n * b + b
  {
  }

  lemma CheckSizes(cfg: Config, s: State)
    requires Inv(cfg, s) && (s.main.Summing? || s.main.Finished?)
    ensures cfg.rounds > 0
    ensures Sum(cfg, CheckSize, s.ws) <= cfg.rounds * Items(cfg)
    ensures Sum(cfg, CheckSize, s.ws) == cfg.rounds * Items(cfg) <==>
            forall i :: 0 <= i < |s.ws| && s.ws[i].kind == Check ==> s.ws[i].size == Items(cfg)
  {
    forall i: nat | i < |s.ws|
      ensures s.ws[i].size <= Items(cfg) && (s.ws[i].kind == Insert <==> i < cfg.rounds)
    {
      WorkerIsOk(cfg, s, i);
    }
    AllThere(cfg, s);
    hide Inv, Sum;
    SizesBounded(cfg, s.ws);
  }

  lemma AllThere(cfg: Config, s: State)
    requires Inv(cfg, s) && (s.main.Summing? || s.main.Finished?)
    ensures cfg.rounds > 0 && |s.ws| == 2 * cfg.rounds && s.main.n <= cfg.rounds
  {
    hide WorkerOk, Counting, Exclusive, AllAccounted, Summed, Tally;
  }

  /** If no captured map has lost an item, every check worker has as many as were to be inserted. */
  lemma NoneLostSizes(cfg: Config, s: State, i: nat)
    requires Inv(cfg, s) && DataInv(cfg, s) && NoneLost(cfg, s) && i < |s.ws| && s.ws[i].kind == Check
    ensures s.ws[i].size == Items(cfg)
  {
    WorkerIsOk(cfg, s, i);
    NumberedHas(i - cfg.rounds, Items(cfg));
    hide Inv, Kept, Delivered, Numbered;
    assert CheckOk(cfg, s.captured, s.db, i, s.ws[i]);
  }

  /** The sum is one that `items * rounds` can be, on ints of 64 bits, for that many items. */
  predicate Attainable(cfg: Config) {
    cfg.items >= 0 || Wrap64(cfg.items * cfg.rounds) == 0
  }

  /** If nothing is lost main never waits on after the last result. */
  lemma SummedUp(cfg: Config, s: State)
    requires Inv(cfg, s) && DataInv(cfg, s) && Attainable(cfg) && NoneLost(cfg, s)
    ensures !(s.main.Summing? && s.main.n == cfg.rounds)
  {
    if s.main.Summing? && s.main.n == cfg.rounds {
      forall i: nat | i < |s.ws| && s.ws[i].kind == Check ensures s.ws[i].size == Items(cfg) {
        NoneLostSizes(cfg, s, i);
      }
      AllSummed(cfg, s);
      CheckSizes(cfg, s);
      FullSumFits(cfg);
      LastSum(cfg, s);
      hide Inv, DataInv;
      assert false;
    }
  }

  lemma LastSum(cfg: Config, s: State)
    requires Inv(cfg, s)
    ensures s.main.Summing? && s.main.n > 0 ==> !SumFits(cfg, s.main.checked)
    ensures s.main.Finished? ==> s.main.n > 0 && SumFits(cfg, s.main.checked) && s.main.checked <= s.main.n * Items(cfg)
  {
    hide SumFits, Counting, Exclusive, Started, AllAccounted, Tally;
  }

  lemma FullSumFits(cfg: Config)
    requires Attainable(cfg)
    ensures SumFits(cfg, cfg.rounds * Items(cfg))
  {
    hide Wrap64;
    if cfg.items < 0 { assert cfg.rounds * Items(cfg) == 0; }
  }

  /** What a finished run says about its configuration and its connects. */
  lemma FinishedMeans(cfg: Config, s: State)
    requires Inv(cfg, s) && s.main.Finished?
    ensures cfg.rounds > 0 && cfg.parallel > 0 && !AnyFailed(s) && Attainable(cfg)
  {
    forall i: nat | i < |s.ws| ensures !s.ws[i].pc.Failed? && !s.ws[i].pc.Waiting? { PastWaits(cfg, s, i); }
    AllThere(cfg, s);
    WorkerIsOk(cfg, s, 0);
    LastSum(cfg, s);
    hide Inv, Wrap64;
    if cfg.items < 0 { assert s.main.checked == 0; }
  }

  /** The sum main stopped at leaves nothing out, if the product has not wrapped around. */
  lemma FinishedSums(cfg: Config, s: State)
    requires Inv(cfg, s) && DataInv(cfg, s) && s.main.Finished? && cfg.items * cfg.rounds <= MAX_INT64
    ensures NoneLost(cfg, s)
    ensures cfg.items > 0 ==> s.main.n == cfg.rounds
  {
    CheckSizes(cfg, s);
    AllThere(cfg, s);
    LastSum(cfg, s);
    PartialSum(cfg, s);
    SumIsProduct(cfg, s.main.checked, s.main.n, Sum(cfg, CheckSize, s.ws));
    CapturedSizes(cfg, s);
    hide Inv, DataInv, Sum, SumFits;
  }

  lemma CapturedSizes(cfg: Config, s: State)
    requires Inv(cfg, s) && DataInv(cfg, s) && s.main.Finished?
    requires forall i :: 0 <= i < |s.ws| && s.ws[i].kind == Check ==> s.ws[i].size == Items(cfg)
    ensures NoneLost(cfg, s)
  {
    forall a: nat | a < |s.captured| ensures |s.captured[a]| == Items(cfg) {
      CapturedChecked(cfg, s, a);
      WorkerIsOk(cfg, s, cfg.rounds + a);
    }
    hide Inv, DataInv;
  }

  /** A sum of n results that fits, of a total that is at most the full one. */
  lemma SumIsProduct(cfg: Config, checked: nat, n: nat, total: nat)
    requires cfg.items * cfg.rounds <= MAX_INT64 && SumFits(cfg, checked) && n <= cfg.rounds
    requires checked <= n * Items(cfg) && checked <= total <= cfg.rounds * Items(cfg)
    ensures total == cfg.rounds * Items(cfg)
    ensures cfg.items > 0 ==> n == cfg.rounds
  {
    hide Wrap64;
    if cfg.items >= 0 {
      assert checked == cfg.items * cfg.rounds;
      if cfg.items > 0 && n < cfg.rounds { Less(cfg.items, n, cfg.rounds); }
    }
  }

  lemma PartialSum(cfg: Config, s: State)
    requires Inv(cfg, s) && s.main.Finished?
    ensures s.main.checked <= Sum(cfg, CheckSize, s.ws)
  {
    hide Sum, Total, Counting, Exclusive, Started, AllAccounted, Summed;
  }

  lemma Less(a: int, b: int, c: int)
    requires a > 0 && b < c
    ensures a * b < a * c
  {
    assert a * (c - b) > 0;
  }

  /** When nothing can move any more, main is through if and only if there was something to do, no connect
      failed, `items * rounds` can be the sum, and, in the random mode, no two keys of a round were equal
      and no two rounds drew one key with different values. In the upcounting mode the last two hold. With
      a positive number of items, and unless the product wraps around, it has then counted the result of
      every round; with no items the first result is enough. */
  lemma Completes(cfg: Config, run: seq<State>)
    requires IsRun(cfg, run) && Blocked(cfg, run[|run| - 1])
    requires cfg.randomize ==> cfg.items * cfg.rounds <= MAX_INT64
    ensures var s := run[|run| - 1];
            s.main.Finished? <==>
            cfg.rounds > 0 && cfg.parallel > 0 && !AnyFailed(s) && Attainable(cfg) && NoneLost(cfg, s) && Agree(s)
    ensures !cfg.randomize ==> NoneLost(cfg, run[|run| - 1]) && Agree(run[|run| - 1])
    ensures run[|run| - 1].main.Finished? && 0 < cfg.items * cfg.rounds <= MAX_INT64 ==>
              run[|run| - 1].main.n == cfg.rounds
  {
    var s := run[|run| - 1];
    RunKeeps(cfg, run, |run| - 1);
    RunData(cfg, run, |run| - 1);
    NothingCaptured(cfg, s);
    if s.aborted { AbortMeansClash(cfg, run, |run| - 1); }
    hide IsRun, Blocked;
    if s.main.Finished? {
      FinishedMeans(cfg, s);
      FinishedAgrees(cfg, s);
      if cfg.items * cfg.rounds <= MAX_INT64 { FinishedSums(cfg, s); }
      if cfg.items <= 0 { NotPositive(cfg.items, cfg.rounds); }
    } else if !s.aborted && cfg.rounds > 0 && cfg.parallel > 0 && !AnyFailed(s) && Attainable(cfg) {
      Halts(cfg, s);
      if NoneLost(cfg, s) { SummedUp(cfg, s); }
    }
    hide Inv, DataInv, Attainable, NoneLost, Agree, AnyFailed;
  }

  lemma NotPositive(a: int, b: nat)
    requires a <= 0
    ensures a * b <= 0
  {
  }

  lemma NothingCaptured(cfg: Config, s: State)
    requires Inv(cfg, s)
    ensures !cfg.randomize ==> NoneLost(cfg, s) && Agree(s)
  {
    hide WorkerOk, Counting, Exclusive, AllAccounted, Summed, Tally;
  }

  // ---------- runs that halt ----------

  /** Every run can be continued until it halts. */
  lemma RunHalts(cfg: Config, run: seq<State>) returns (halted: seq<State>)
    requires IsRun(cfg, run)
    ensures IsRun(cfg, halted) && Blocked(cfg, halted[|halted| - 1]) && run <= halted
    decreases Bound(cfg, run)
  {
    assert run != [];
    hide Next, IsRun, Bound;
    if Blocked(cfg, run[|run| - 1]) {
      halted := run;
    } else {
      var s' :| Next(cfg, run[|run| - 1], s');
      RunExtends(cfg, run, s');
      halted := RunHalts(cfg, run + [s']);
    }
  }

  lemma RunExtends(cfg: Config, run: seq<State>, s': State)
    requires IsRun(cfg, run) && Next(cfg, run[|run| - 1], s')
    ensures IsRun(cfg, run + [s']) && Bound(cfg, run + [s']) < Bound(cfg, run)
  {
    hide Next, Inv, Potential;
    RunKeeps(cfg, run, |run| - 1);
    Descends(cfg, run[|run| - 1], s');
    PotentialIsNat(cfg, run[|run| - 1]);
    StepKeeps(cfg, run[|run| - 1], s');
    PotentialIsNat(cfg, s');
  }

  function Bound(cfg: Config, run: seq<State>): nat
    requires run != []
  {
    var p := Potential(cfg, run[|run| - 1]);
    if p < 0 then 0 else p
  }

  /** With a negative number of items a run that halts is not complete, unless the product of items and
      rounds wraps around to 0: main waits for a sum it can never have. And there is a run that halts. */
  lemma NegativeNeverCompletes(cfg: Config) returns (run: seq<State>)
    requires cfg.items < 0 && Wrap64(cfg.items * cfg.rounds) != 0
    ensures IsRun(cfg, run) && Blocked(cfg, run[|run| - 1]) && !run[|run| - 1].main.Finished?
  {
    assert IsRun(cfg, [Initial(cfg)]);
    run := RunHalts(cfg, [Initial(cfg)]);
    RunKeeps(cfg, run, |run| - 1);
    hide Inv, IsRun, Blocked;
    if run[|run| - 1].main.Finished? { FinishedMeans(cfg, run[|run| - 1]); }
  }

  /** A connect that fails is enough: the run halts and is not complete. */
  lemma FailedConnectHangs(cfg: Config) returns (run: seq<State>)
    requires cfg.rounds > 0 && cfg.parallel > 0
    ensures IsRun(cfg, run) && Blocked(cfg, run[|run| - 1]) && !run[|run| - 1].main.Finished?
  {
    var prefix := FailingRun(cfg);
    run := RunHalts(cfg, prefix);
    FailedStays(cfg, run, |prefix| - 1, |run| - 1);
    RunKeeps(cfg, run, |run| - 1);
    hide Inv, IsRun, Blocked;
    if run[|run| - 1].main.Finished? { FinishedMeans(cfg, run[|run| - 1]); }
  }

  lemma FailingRun(cfg: Config) returns (run: seq<State>)
    requires cfg.rounds > 0 && cfg.parallel > 0
    ensures IsRun(cfg, run) && |run| == 5 && AnyFailed(run[4])
  {
    var s0, w := Initial(cfg), NewInsert(cfg);
    var s1 := s0.(ws := [w]);
    var s2 := s1.(ws := Put(s1, 0, Selecting), tokens := 1);
    var s3 := s2.(ws := Put(s2, 0, Opening));
    var s4 := s3.(ws := Put(s3, 0, Failed));
    assert [] + [w] == [w];
    assert Spawn(cfg, s0, s1);
    assert WorkerStep(cfg, s1, s2, 0) && WorkerStep(cfg, s2, s3, 0) && WorkerStep(cfg, s3, s4, 0);
    assert Next(cfg, s0, s1) && Next(cfg, s1, s2) && Next(cfg, s2, s3) && Next(cfg, s3, s4);
    run := [s0, s1, s2, s3, s4];
    assert s4.ws[0].pc.Failed?;
  }

  lemma {:induction false} FailedStays(cfg: Config, run: seq<State>, j: nat, k: nat)
    requires IsRun(cfg, run) && j <= k < |run| && AnyFailed(run[j])
    ensures AnyFailed(run[k])
    decreases k
  {
    hide AnyFailed, Next;
    if j < k {
      FailedStays(cfg, run, j, k - 1);
      FailedStaysStep(cfg, run[k - 1], run[k]);
    }
  }

  lemma FailedStaysStep(cfg: Config, s: State, s': State)
    requires Next(cfg, s, s') && AnyFailed(s)
    ensures AnyFailed(s')
  {
    var i :| 0 <= i < |s.ws| && s.ws[i].pc.Failed?;
    if exists j: nat :: j < |s.ws| && WorkerStep(cfg, s, s', j) {
      var j: nat :| j < |s.ws| && WorkerStep(cfg, s, s', j);
      OnlyOneMoves(cfg, s, s', j);
    } else {
      assert s'.ws[..|s.ws|] == s.ws;
      assert s'.ws[i] == s'.ws[..|s.ws|][i];
    }
    hide WorkerStep, Spawn, Receive, Next;
    assert i < |s'.ws| && s'.ws[i].pc.Failed?;
  }

  lemma OnlyOneMoves(cfg: Config, s: State, s': State, j: nat)
    requires j < |s.ws| && WorkerStep(cfg, s, s', j)
    ensures !s.ws[j].pc.Failed? && |s'.ws| == |s.ws| && forall i :: 0 <= i < |s.ws| && i != j ==> s'.ws[i] == s.ws[i]
  {
    if Report(cfg, s, s', j) {
      ReportShape(cfg, s, s', j);
    } else if InsertItem(cfg, s, s', j) || CheckItem(s, s', j) {
      ItemShape(cfg, s, s', j);
    }
    hide Report, InsertItem, CheckItem;
  }
}
