/** The line protocol a TCP session speaks (server/socket.go:225-680): one step per line, over the
    map the database stores. */
module Protocol {
  import opened Wrappers

  const NUL: Bytes := [0x00]
  const ACK: Bytes := [0x06]
  const BEL: Bytes := [0x07]
  const ETB: Bytes := [0x17]
  const CAN: Bytes := [0x18]
  const LF: bv8 := 0x0A
  const CR: bv8 := 0x0D
  const CRLF: Bytes := [CR, LF]
  const BAR: bv8 := 0x7C
  const MAGIC_D: bv8 := 0x44
  const MAGIC_G: bv8 := 0x47
  const MAGIC_S: bv8 := 0x53
  const KEY_LIMIT: nat := 1024 * 1024 * 1024
  const VAL_LIMIT: nat := 1024 * 1024 * 1024

  datatype Mode = NoMode | ModeSet | ModeGet | ModeDel

  /** `Panicked`: the goroutine dereferenced nil, wrote to a nil map or failed a type assertion. Nothing
      recovers, so that the process ends. */
  datatype Status = Open | Closed | Panicked

  /** The session flags. A nil `vals` map is None. */
  datatype Session = Session(
    status: Status,
    mode: Mode,
    state: int,
    numBy: int,
    key: Bytes,
    keys: seq<Bytes>,
    vals: Option<map<Bytes, Bytes>>,
    setCount: int, tmpset: int,
    getCount: int, tmpget: int)

  const FRESH := Session(Open, NoMode, -1, 0, [], [], None, 0, 0, 0, 0)

  // ---------- the header line ----------

  predicate IsDigit(c: bv8) {
    0x30 <= c <= 0x39
  }

  /** Decimal value of a digit string. */
  function Decimal(s: Bytes): nat {
    if s == [] then 0 else Decimal(s[..|s| - 1]) * 10 + if IsDigit(s[|s| - 1]) then (s[|s| - 1] - 0x30) as nat else 0
  }

  /** `utils.Str2int`: 0 for anything that is not a decimal number an int64 holds. */
  function Str2int(s: Bytes): nat {
    if s != [] && (forall i :: 0 <= i < |s| ==> IsDigit(s[i])) && Decimal(s) <= MAX_INT64 then Decimal(s) else 0
  }

  /** The bytes before the first bar. */
  function UpToBar(s: Bytes): Bytes {
    if s == [] || s[0] == BAR then [] else [s[0]] + UpToBar(s[1..])
  }

  function Close(s: Session): Session {
    s.(status := Closed)
  }

  function Header(s: Session, line: Bytes): (Session, Bytes) {
    var s0 := s.(keys := [], vals := if s.vals == None then Some(map[]) else s.vals);
    if |line| < 3 || line[1] != BAR then (Close(s0), CAN + CRLF)
    else
      var s1 := s0.(state := -1, setCount := 0, tmpset := 0, getCount := 0, tmpget := 0);
      var n := Str2int(UpToBar(line[2..]));
      if line[0] == MAGIC_S && n != 0 then (s1.(numBy := n, mode := ModeSet, state := 0), [])
      else if line[0] == MAGIC_G && n != 0 then (s1.(numBy := n, mode := ModeGet, state := 0), [])
      else if line[0] == MAGIC_D && n != 0 then (s1.(numBy := n, mode := ModeDel, state := 0), [])
      else (Close(s1.(numBy := if line[0] in {MAGIC_S, MAGIC_G, MAGIC_D} then 0 else s1.numBy)), [])
  }

  // ---------- SET ----------

  /** Store the collected pairs in order; None if some key has no value. */
  function StoreAll(m: Map, keys: seq<Bytes>, vals: map<Bytes, Bytes>): Option<Map>
    decreases |keys|
  {
    if keys == [] then Some(m)
    else if keys[0] !in vals then None
    else StoreAll(m[keys[0] := Str(vals[keys[0]])], keys[1..], vals)
  }

  /** The session once the collected pairs are stored. */
  function PairsStored(s: Session): Session {
    s.(tmpset := s.tmpset - |s.keys|, setCount := s.setCount + |s.keys|, keys := [], vals := None, mode := NoMode)
  }

  function SetLine(s: Session, m: Map, line: Bytes): (Session, Map, Bytes) {
    if s.state == 0 then
      if |line| > KEY_LIMIT then (Close(s), m, CAN + CRLF)
      else (s.(key := line, state := 1), m, [])
    else if s.state == 1 then
      if |line| > VAL_LIMIT then (Close(s), m, CAN + CRLF)
      else
        var s1 := s.(numBy := s.numBy - 1, tmpset := s.tmpset + 1, keys := s.keys + [s.key]);
        (match s.vals
         case None => s1.(status := Panicked)
         case Some(vals) => s1.(vals := Some(vals[s.key := line]), key := [], state := 2), m, [])
    else if s.state == 2 then
      if |line| != 1 then (Close(s), m, CAN + CRLF)
      else if line == ETB then
        match StoreAll(m, s.keys, match s.vals case None => map[] case Some(vals) => vals)
        case None => (s.(status := Panicked), m, [])
        case Some(m') => (PairsStored(s), m', ACK + CRLF)
      else (s, m, [])
    else (s, m, [])
  }

  lemma SetLineEnds(s: Session, m: Map, m': Map)
    requires s.state == 2 && s.vals.Some? && StoreAll(m, s.keys, s.vals.value) == Some(m')
    ensures SetLine(s, m, ETB) == (PairsStored(s), m', ACK + CRLF)
  {
  }

  // ---------- GET ----------

  /** A missing key, or a stored nil, is answered by NUL; `key` is appended if several were asked for.
      A value that is neither nil nor a string has no answer: the type assertion panics. */
  function Answer(m: Map, akey: Bytes, lenk: nat, key: Bytes): Bytes {
    match (if akey in m then m[akey] else Nil)
    case Str(text) => text + CRLF
    case Nil => NUL + (if lenk > 1 then key else []) + CRLF
    case Other(_) => []
  }

  predicate Hit(m: Map, akey: Bytes) {
    akey in m && m[akey].Str?
  }

  predicate HoldsOther(m: Map, akey: Bytes) {
    akey in m && m[akey].Other?
  }

  /** Where the answers stop: the first key that holds neither nil nor a string, if any. */
  function FirstOther(m: Map, keys: seq<Bytes>): (n: nat)
    ensures n <= |keys|
    ensures n < |keys| ==> HoldsOther(m, keys[n])
    ensures forall i :: 0 <= i < n ==> !HoldsOther(m, keys[i])
  {
    if keys == [] then 0
    else
      var n := FirstOther(m, keys[..|keys| - 1]);
      if n == |keys| - 1 && !HoldsOther(m, keys[n]) then |keys| else n
  }

  function Answers(m: Map, keys: seq<Bytes>, lenk: nat, key: Bytes): Bytes {
    if keys == [] then [] else Answers(m, keys[..|keys| - 1], lenk, key) + Answer(m, keys[|keys| - 1], lenk, key)
  }

  function Hits(m: Map, keys: seq<Bytes>): nat {
    if keys == [] then 0 else Hits(m, keys[..|keys| - 1]) + if Hit(m, keys[|keys| - 1]) then 1 else 0
  }

  /** The first i keys have been answered with `out`, and `hits` of them were there. */
  ghost predicate Replied(m: Map, keys: seq<Bytes>, key: Bytes, i: nat, out: Bytes, hits: int) {
    && i <= FirstOther(m, keys)
    && out == Answers(m, keys[..i], |keys|, key) && hits == Hits(m, keys[..i])
  }

  lemma NoneReplied(m: Map, keys: seq<Bytes>, key: Bytes)
    ensures Replied(m, keys, key, 0, [], 0)
  {
    assert keys[..0] == [];
  }

  lemma OneReplied(m: Map, keys: seq<Bytes>, key: Bytes, i: nat, out: Bytes, hits: int)
    requires Replied(m, keys, key, i, out, hits) && i < |keys| && !HoldsOther(m, keys[i])
    ensures Replied(m, keys, key, i + 1, out + Answer(m, keys[i], |keys|, key), hits + if Hit(m, keys[i]) then 1 else 0)
  {
    assert keys[..i + 1][..i] == keys[..i];
    hide FirstOther;
  }

  lemma AnswersEnd(m: Map, keys: seq<Bytes>, key: Bytes, i: nat, out: Bytes, hits: int)
    requires Replied(m, keys, key, i, out, hits) && (i == |keys| || (i < |keys| && HoldsOther(m, keys[i])))
    ensures i == FirstOther(m, keys)
    ensures out == Answers(m, keys[..i], |keys|, key) && hits == Hits(m, keys[..i])
  {
  }

  function GetLine(s: Session, m: Map, line: Bytes): (Session, Map, Bytes) {
    if s.state == 0 then
      if |line| > KEY_LIMIT then (Close(s), m, CAN + CRLF)
      else (s.(numBy := s.numBy - 1, tmpget := s.tmpget + 1, keys := s.keys + [line], state := 1), m, [])
    else if s.state == 1 then
      if |line| != 1 then (Close(s), m, CAN + CRLF)
      else if line == ETB then
        var served := s.keys[..FirstOther(m, s.keys)];
        var hits := Hits(m, served);
        var s1 := s.(tmpget := s.tmpget - hits, getCount := s.getCount + hits);
        (if |served| < |s.keys| then s1.(status := Panicked) else s1.(mode := NoMode, keys := []), m,
         Answers(m, served, |s.keys|, s.key))
      else if line == BEL then (s.(state := 0), m, [])
      else (s, m, [])
    else (s, m, [])
  }

  // ---------- DEL ----------

  /** Delete the collected keys in order: NUL for a key that was there, ACK for one that was not. */
  function DeleteAll(m: Map, keys: seq<Bytes>, key: Bytes): (Map, Bytes) {
    if keys == [] then (m, [])
    else
      var (m', out) := DeleteAll(m, keys[..|keys| - 1], key);
      var k := keys[|keys| - 1];
      (m' - {k}, out + if k in m' then NUL + key + CRLF else ACK + CRLF)
  }

  function DelLine(s: Session, m: Map, line: Bytes): (Session, Map, Bytes) {
    if s.state == 0 then
      if |line| > KEY_LIMIT then (Close(s), m, CAN + CRLF)
      else (s.(numBy := s.numBy - 1, keys := s.keys + [line], state := 1), m, [])
    else if s.state == 1 then
      if |line| != 1 then (Close(s), m, CAN + CRLF)
      else if line == ETB then var (m', out) := DeleteAll(m, s.keys, s.key); (s, m', out)
      else if line == BEL then (s.(state := 0), m, [])
      else (s, m, [])
    else (s, m, [])
  }

  // ---------- sessions ----------

  /** What the line reader can deliver as a line. */
  predicate LineSafe(s: Bytes) {
    forall i :: 0 <= i < |s| ==> s[i] != LF
  }

  /** Lines as they are sent. */
  function Encode(lines: seq<Bytes>): Bytes {
    if lines == [] then [] else lines[0] + CRLF + Encode(lines[1..])
  }

  /** One line received by an open session: the new session, the new map and what is sent back. */
  function Step(s: Session, m: Map, line: Bytes): (Session, Map, Bytes) {
    match s.mode
    case NoMode => var (s', out) := Header(s, line); (s', m, out)
    case ModeSet => SetLine(s, m, line)
    case ModeGet => GetLine(s, m, line)
    case ModeDel => DelLine(s, m, line)
  }

  /** The lines a session receives until it ends. */
  function Receive(s: Session, m: Map, lines: seq<Bytes>): (Session, Map, Bytes)
    decreases |lines|
  {
    if lines == [] || s.status != Open then (s, m, [])
    else
      var (s1, m1, out1) := Step(s, m, lines[0]);
      var (s2, m2, out2) := Receive(s1, m1, lines[1..]);
      (s2, m2, out1 + out2)
  }

  /** Between any two lines: in SET mode every collected key has a value, `key` is filled only while
      its value is awaited, the map that takes the values exists, and collected keys are within the
      limit. */
  ghost predicate Consistent(s: Session) {
    s.status == Open ==>
      && (s.key != [] ==> s.mode == ModeSet && s.state == 1)
      && (s.mode != NoMode ==> s.vals.Some?)
      && (s.mode == ModeSet ==>
            && s.state in {0, 1, 2}
            && |s.keys| == (if s.state == 2 then 1 else 0)
            && forall k :: k in s.keys ==> k in s.vals.value)
      && (s.mode in {ModeGet, ModeDel} ==>
            && s.state in {0, 1}
            && (s.state == 1 ==> s.keys != [])
            && forall k :: k in s.keys ==> |k| <= KEY_LIMIT)
  }

  /** The line makes the server answer a key that holds neither nil nor a string. */
  ghost predicate Breaks(s: Session, m: Map, line: Bytes) {
    s.mode == ModeGet && s.state == 1 && line == ETB && exists k :: k in s.keys && HoldsOther(m, k)
  }

  /** Every line keeps the session consistent, and panics exactly when it ends a GET of a key that holds
      neither nil nor a string: no other dereference or assertion of the loop can fail. */
  lemma StepConsistent(s: Session, m: Map, line: Bytes)
    requires Consistent(s) && s.status == Open
    ensures Consistent(Step(s, m, line).0)
    ensures Step(s, m, line).0.status == Panicked <==> Breaks(s, m, line)
  {
    match s.mode
    case NoMode =>
      hide Str2int, UpToBar;
    case ModeSet =>
      if s.state == 2 && line == ETB {
        assert s.keys == [s.keys[0]];
        StoreOne(m, s.keys[0], s.vals.value);
      }
    case ModeGet =>
      GetConsistent(s, m, line);
      hide GetLine;
    case ModeDel =>
      hide DeleteAll;
  }

  lemma GetConsistent(s: Session, m: Map, line: Bytes)
    requires Consistent(s) && s.status == Open && s.mode == ModeGet
    ensures Consistent(GetLine(s, m, line).0)
    ensures GetLine(s, m, line).0.status == Panicked <==> Breaks(s, m, line)
  {
    if s.state == 1 && line == ETB {
      var n := FirstOther(m, s.keys);
      assert n < |s.keys| ==> s.keys[n] in s.keys;
    }
    hide Hits, Answers, FirstOther;
  }

  lemma StoreOne(m: Map, k: Bytes, vals: map<Bytes, Bytes>)
    ensures StoreAll(m, [k], vals) == if k in vals then Some(m[k := Str(vals[k])]) else None
  {
    assert [k][1..] == [];
  }

  /** Every key that a line can name holds nil or a string. */
  ghost predicate AllText(m: Map) {
    forall k :: |k| <= KEY_LIMIT && LineSafe(k) ==> !HoldsOther(m, k)
  }

  /** The keys collected for a GET came on lines. */
  ghost predicate KeysOnLines(s: Session) {
    s.status == Open && s.mode == ModeGet ==> forall k :: k in s.keys ==> LineSafe(k)
  }

  /** Sessions store strings only, so that they keep such a database. */
  lemma StepText(s: Session, m: Map, line: Bytes)
    requires AllText(m)
    ensures AllText(Step(s, m, line).1)
  {
    match s.mode
    case NoMode =>
    case ModeSet => StoreText(m, s.keys, match s.vals case None => map[] case Some(vals) => vals);
    case ModeGet =>
    case ModeDel => DeleteText(m, s.keys, s.key);
  }

  lemma {:induction false} StoreText(m: Map, keys: seq<Bytes>, vals: map<Bytes, Bytes>)
    requires AllText(m)
    ensures StoreAll(m, keys, vals).Some? ==> AllText(StoreAll(m, keys, vals).value)
    decreases |keys|
  {
    if keys != [] && keys[0] in vals { StoreText(m[keys[0] := Str(vals[keys[0]])], keys[1..], vals); }
  }

  lemma {:induction false} DeleteText(m: Map, keys: seq<Bytes>, key: Bytes)
    requires AllText(m)
    ensures AllText(DeleteAll(m, keys, key).0)
    decreases |keys|
  {
    if keys != [] { DeleteText(m, keys[..|keys| - 1], key); }
  }

  /** On such a database no sequence of lines makes the server panic, from the banner on. */
  lemma {:induction false} NeverPanics(s: Session, m: Map, lines: seq<Bytes>)
    requires Consistent(s) && KeysOnLines(s) && s.status != Panicked && AllText(m)
    requires forall i :: 0 <= i < |lines| ==> LineSafe(lines[i])
    ensures var (s', m', out) := Receive(s, m, lines);
            Consistent(s') && KeysOnLines(s') && s'.status != Panicked && AllText(m')
    decreases |lines|
  {
    if lines != [] && s.status == Open {
      StepOnText(s, m, lines[0]);
      var (s1, m1, out1) := Step(s, m, lines[0]);
      hide Step, AllText, Consistent, KeysOnLines;
      NeverPanics(s1, m1, lines[1..]);
    }
  }

  lemma StepOnText(s: Session, m: Map, line: Bytes)
    requires Consistent(s) && KeysOnLines(s) && s.status == Open && AllText(m) && LineSafe(line)
    ensures var (s', m', out) := Step(s, m, line);
            Consistent(s') && KeysOnLines(s') && s'.status != Panicked && AllText(m')
  {
    StepConsistent(s, m, line);
    StepText(s, m, line);
    StepKeys(s, m, line);
    hide Step, LineSafe;
  }

  lemma StepKeys(s: Session, m: Map, line: Bytes)
    requires KeysOnLines(s) && s.status == Open && LineSafe(line)
    ensures KeysOnLines(Step(s, m, line).0)
  {
    hide LineSafe, Str2int, UpToBar, Hits, Answers, FirstOther, DeleteAll, StoreAll;
  }

  lemma {:induction false} ReceiveAppend(s: Session, m: Map, a: seq<Bytes>, b: seq<Bytes>)
    ensures var (s1, m1, out1) := Receive(s, m, a);
            var (s2, m2, out2) := Receive(s1, m1, b);
            Receive(s, m, a + b) == (s2, m2, out1 + out2)
    decreases |a|
  {
    if a == [] {
      assert a + b == b;
      var out := Receive(s, m, b).2;
      assert [] + out == out;
    } else if s.status == Open {
      assert (a + b)[0] == a[0] && (a + b)[1..] == a[1..] + b;
      var (s1, m1, out1) := Step(s, m, a[0]);
      ReceiveAppend(s1, m1, a[1..], b);
      var (s2, m2, out2) := Receive(s1, m1, a[1..]);
      var out3 := Receive(s2, m2, b).2;
      assert out1 + (out2 + out3) == (out1 + out2) + out3;
    } else {
      var out: Bytes := [];
      assert out + out == out;
    }
  }

  // ---------- the header line ----------

  function Pow10(n: nat): nat {
    if n == 0 then 1 else 10 * Pow10(n - 1)
  }

  /** The number that a string of digits denotes: each digit at its power of ten. */
  function Number(s: Bytes): nat {
    if s == [] then 0 else ((s[0] - 0x30) as nat) * Pow10(|s| - 1) + Number(s[1..])
  }

  ghost predicate Digits(s: Bytes) {
    forall i :: 0 <= i < |s| ==> 0x30 <= s[i] <= 0x39
  }

  lemma {:induction false} NumberAppend(s: Bytes, c: bv8)
    ensures Number(s + [c]) == 10 * Number(s) + (c - 0x30) as nat
    decreases |s|
  {
    if s == [] {
      assert s + [c] == [c] && [c][1..] == [] && Pow10(0) == 1;
    } else {
      assert (s + [c])[0] == s[0] && (s + [c])[1..] == s[1..] + [c];
      NumberAppend(s[1..], c);
      TenTimes((s[0] - 0x30) as nat, Pow10(|s| - 1), Number(s[1..]));
    }
  }

  lemma TenTimes(d: nat, p: nat, n: nat)
    ensures 10 * (d * p + n) == d * (10 * p) + 10 * n
  {
  }

  lemma {:induction false} DecimalIsNumber(s: Bytes)
    requires Digits(s)
    ensures Decimal(s) == Number(s)
    decreases |s|
  {
    if s != [] {
      var front, c := s[..|s| - 1], s[|s| - 1];
      DecimalIsNumber(front);
      assert s == front + [c];
      NumberAppend(front, c);
    }
  }

  lemma {:induction false} DecimalZero(s: Bytes)
    requires Digits(s)
    ensures Decimal(s) == 0 <==> forall i :: 0 <= i < |s| ==> s[i] == 0x30
    decreases |s|
  {
    if s != [] {
      var n := |s| - 1;
      DecimalZero(s[..n]);
      DigitZero(s[n]);
      assert (forall i :: 0 <= i < |s| ==> s[i] == 0x30) <==>
             s[n] == 0x30 && forall i :: 0 <= i < n ==> s[..n][i] == 0x30;
    }
  }

  lemma DigitZero(c: bv8)
    requires 0x30 <= c <= 0x39
    ensures (c - 0x30) as nat == 0 <==> c == 0x30
  {
  }

  /** Up to position n, the end of the line or a further bar, stands a decimal number that is positive and
      that an int of 64 bits holds. */
  ghost predicate CountUpTo(line: Bytes, n: nat) {
    && 2 < n <= |line| && (n == |line| || line[n] == 0x7C) && Digits(line[2..n])
    && (exists i :: 2 <= i < n && line[i] != 0x30)
    && Number(line[2..n]) <= 0x7FFF_FFFF_FFFF_FFFF
  }

  lemma {:induction false} BarOrEnd(s: Bytes) returns (j: nat)
    ensures j <= |s| && UpToBar(s) == s[..j] && (j == |s| || s[j] == 0x7C)
    ensures forall i :: 0 <= i < j ==> s[i] != 0x7C
    decreases |s|
  {
    if s == [] || s[0] == BAR {
      j := 0;
    } else {
      var k := BarOrEnd(s[1..]);
      j := k + 1;
      assert s[..j] == [s[0]] + s[1..][..k];
      forall i | 0 <= i < j ensures s[i] != 0x7C {
        if i > 0 { assert s[i] == s[1..][i - 1]; }
      }
    }
  }

  lemma CountParsed(line: Bytes)
    requires |line| >= 2
    ensures Str2int(UpToBar(line[2..])) != 0 <==> exists n: nat :: CountUpTo(line, n)
  {
    var j := BarOrEnd(line[2..]);
    var c := line[2..2 + j];
    assert UpToBar(line[2..]) == c;
    if exists n: nat :: CountUpTo(line, n) {
      var n: nat :| CountUpTo(line, n);
      assert forall i :: 2 <= i < n ==> line[i] == line[2..n][i - 2] && line[i] != 0x7C;
      assert n < |line| ==> line[2..][n - 2] == line[n];
      assert j < |line| - 2 ==> line[2..][j] == line[2 + j];
      assert n <= 2 + j;
      assert n == 2 + j;
      var i :| 2 <= i < n && line[i] != 0x30;
      assert c[i - 2] != 0x30;
      DecimalIsNumber(c);
      DecimalZero(c);
    }
    if Str2int(c) != 0 {
      assert Digits(c);
      DecimalIsNumber(c);
      DecimalZero(c);
      var i :| 0 <= i < |c| && c[i] != 0x30;
      assert line[i + 2] != 0x30;
      assert CountUpTo(line, 2 + j);
    }
  }

  /** The first line of a command. If it is too short or its second byte is not the bar it is answered with
      CAN and the session ends; if the command is none of SET, GET and DEL or the count is not a positive
      decimal number of 64 bits, the session ends without a word; else the command begins. */
  lemma HeaderDecides(s: Session, m: Map, line: Bytes)
    requires Ready(s)
    ensures var (s', m', out) := Receive(s, m, [line]);
            && m' == m
            && (|line| < 3 || line[1] != 0x7C ==> s'.status == Closed && out == [0x18, 0x0D, 0x0A])
            && (|line| >= 3 && line[1] == 0x7C ==> out == [])
            && (|line| >= 3 && line[1] == 0x7C ==>
                  if line[0] in {0x53, 0x47, 0x44} && exists n: nat :: CountUpTo(line, n)
                  then && s'.status == Open && s'.state == 0 && s'.keys == []
                       && s'.mode == (if line[0] == 0x53 then ModeSet else if line[0] == 0x47 then ModeGet else ModeDel)
                  else s'.status == Closed)
  {
    ReceiveOne(s, m, line);
    if |line| >= 3 { CountParsed(line); }
    hide Str2int, UpToBar, CountUpTo;
  }

  // ---------- framing of GET ----------

  /** A session between two commands. */
  ghost predicate Ready(s: Session) {
    s.status == Open && s.mode == NoMode && s.key == []
  }

  /** `k1 BEL k2 BEL ... kn`. */
  function KeyLines(keys: seq<Bytes>): seq<Bytes>
    requires keys != []
  {
    if |keys| == 1 then keys else KeyLines(keys[..|keys| - 1]) + [BEL, keys[|keys| - 1]]
  }

  lemma KeyLinesLast(keys: seq<Bytes>)
    requires keys != []
    ensures |keys| == 1 ==> KeyLines(keys) == keys
    ensures |keys| > 1 ==> KeyLines(keys) == KeyLines(keys[..|keys| - 1]) + [BEL, keys[|keys| - 1]]
  {
  }

  lemma NothingMore()
    ensures var none: Bytes := []; none + none == none
  {
  }

  lemma ReceiveOne(s: Session, m: Map, line: Bytes)
    requires s.status == Open
    ensures Receive(s, m, [line]) == Step(s, m, line)
  {
    var (s1, m1, out1) := Step(s, m, line);
    assert [line][1..] == [];
    assert out1 + [] == out1;
  }

  lemma ReceiveTwo(s: Session, m: Map, a: Bytes, b: Bytes)
    requires s.status == Open && Step(s, m, a).0.status == Open
    ensures var (s1, m1, out1) := Step(s, m, a);
            var (s2, m2, out2) := Step(s1, m1, b);
            Receive(s, m, [a, b]) == (s2, m2, out1 + out2)
  {
    assert [a] + [b] == [a, b];
    ReceiveOne(s, m, a);
    ReceiveOne(Step(s, m, a).0, Step(s, m, a).1, b);
    ReceiveAppend(s, m, [a], [b]);
  }

  lemma KeyCollected(s: Session, m: Map, k: Bytes)
    requires s.status == Open && s.mode == ModeGet && s.state == 1 && |k| <= KEY_LIMIT
    ensures Receive(s, m, [BEL, k]) ==
            (s.(numBy := s.numBy - 1, tmpget := s.tmpget + 1, keys := s.keys + [k]), m, [])
  {
    var none: Bytes := [];
    assert none + none == none;
    ReceiveTwo(s, m, BEL, k);
  }

  lemma FirstKey(s: Session, m: Map, k: Bytes)
    requires s.status == Open && s.mode == ModeGet && s.state == 0 && s.keys == [] && |k| <= KEY_LIMIT
    ensures Receive(s, m, [k]) == (s.(numBy := s.numBy - 1, tmpget := s.tmpget + 1, keys := [k], state := 1), m, [])
  {
    ReceiveOne(s, m, k);
    assert [] + [k] == [k];
  }

  lemma {:induction false} KeysCollected(s: Session, m: Map, keys: seq<Bytes>)
    requires s.status == Open && s.mode == ModeGet && s.state == 0 && s.keys == []
    requires keys != [] && forall i :: 0 <= i < |keys| ==> |keys[i]| <= KEY_LIMIT
    ensures Receive(s, m, KeyLines(keys)) ==
            (s.(numBy := s.numBy - |keys|, tmpget := s.tmpget + |keys|, keys := keys, state := 1), m, [])
    decreases |keys|
  {
    hide Receive, Step, KeyLines;
    var n := |keys| - 1;
    KeyLinesLast(keys);
    if n == 0 {
      FirstKey(s, m, keys[0]);
      assert keys == [keys[0]];
    } else {
      var front := keys[..n];
      KeysCollected(s, m, front);
      ReceiveAppend(s, m, KeyLines(front), [BEL, keys[n]]);
      KeyCollected(Receive(s, m, KeyLines(front)).0, m, keys[n]);
      NothingMore();
      assert front + [keys[n]] == keys;
    }
  }

  ghost predicate IsHeader(line: Bytes, magic: bv8) {
    |line| >= 3 && line[0] == magic && line[1] == BAR && Str2int(UpToBar(line[2..])) != 0
  }

  /** The line a key is answered with. */
  function ReplyLine(m: Map, k: Bytes): Bytes {
    if Hit(m, k) then m[k].text else NUL
  }

  /** One reply line a key, in order. */
  function Replies(m: Map, keys: seq<Bytes>): (r: seq<Bytes>)
    ensures |r| == |keys|
  {
    seq(|keys|, i requires 0 <= i < |keys| => ReplyLine(m, keys[i]))
  }

  lemma {:induction false} EncodeAppend(lines: seq<Bytes>, line: Bytes)
    ensures Encode(lines + [line]) == Encode(lines) + line + CRLF
    decreases |lines|
  {
    if lines == [] {
      assert lines + [line] == [line] && [line][1..] == [];
      assert [] + line + CRLF == line + CRLF + [];
    } else {
      assert (lines + [line])[0] == lines[0] && (lines + [line])[1..] == lines[1..] + [line];
      EncodeAppend(lines[1..], line);
      var more := Encode(lines[1..]);
      assert lines[0] + CRLF + (more + line + CRLF) == (lines[0] + CRLF + more) + line + CRLF;
    }
  }

  /** Unless a key holds a value of another type, the answers are the reply lines. */
  lemma {:induction false} AnswersAreLines(m: Map, keys: seq<Bytes>, lenk: nat)
    requires forall i :: 0 <= i < |keys| ==> !HoldsOther(m, keys[i])
    ensures Answers(m, keys, lenk, []) == Encode(Replies(m, keys))
    decreases |keys|
  {
    if keys != [] {
      var n := |keys| - 1;
      AnswersAreLines(m, keys[..n], lenk);
      EncodeAppend(Replies(m, keys[..n]), ReplyLine(m, keys[n]));
      assert Replies(m, keys) == Replies(m, keys[..n]) + [ReplyLine(m, keys[n])];
      AnswerIs(m, keys[n], lenk);
      var front := Encode(Replies(m, keys[..n]));
      assert front + (ReplyLine(m, keys[n]) + CRLF) == front + ReplyLine(m, keys[n]) + CRLF;
    }
  }

  lemma {:induction false} HitsCount(m: Map, keys: seq<Bytes>)
    ensures Hits(m, keys) == |set i: int | 0 <= i < |keys| && keys[i] in m && m[keys[i]].Str?|
    decreases |keys|
  {
    var all := set i: int | 0 <= i < |keys| && keys[i] in m && m[keys[i]].Str?;
    if keys != [] {
      var n := |keys| - 1;
      var front := keys[..n];
      HitsCount(m, front);
      var before := set i: int | 0 <= i < |front| && front[i] in m && m[front[i]].Str?;
      assert all == before + if Hit(m, keys[n]) then {n} else {};
    } else {
      assert all == {};
    }
  }

  /** A GET header, any keys within the limit separated by BEL lines, and ETB: one reply line a key, in
      order, up to the first key that holds neither nil nor a string, where the server panics. Without
      such a key the session is ready again with no keys kept, and the counters end as hits and misses.
      The database is untouched. The keys may themselves be BEL or ETB. */
  lemma GetFraming(s: Session, m: Map, header: Bytes, keys: seq<Bytes>)
    requires Ready(s) && IsHeader(header, MAGIC_G)
    requires keys != [] && forall i :: 0 <= i < |keys| ==> |keys[i]| <= KEY_LIMIT
    ensures var (s', m', out) := Receive(s, m, [header] + KeyLines(keys) + [ETB]);
            var n := FirstOther(m, keys);
            && m' == m
            && out == Encode(Replies(m, keys[..n]))
            && s'.getCount == |set i: int | 0 <= i < n && keys[i] in m && m[keys[i]].Str?|
            && s'.tmpget == |keys| - s'.getCount
            && (n == |keys| ==> Ready(s') && s'.keys == [])
            && (n < |keys| ==> s'.status == Panicked)
    ensures FirstOther(m, keys) == |keys| <==> forall k :: k in keys && k in m ==> !m[k].Other?
    ensures forall i :: 0 <= i < |keys| ==>
              Replies(m, keys)[i] == if keys[i] in m && m[keys[i]].Str? then m[keys[i]].text else [0x00]
  {
    GetAnswers(s, m, header, keys);
    HitsUpTo(m, keys, FirstOther(m, keys));
    NoOther(m, keys);
    hide Receive, Encode, FirstOther, Hits, IsHeader, Ready;
  }

  lemma HitsUpTo(m: Map, keys: seq<Bytes>, n: nat)
    requires n <= |keys|
    ensures Hits(m, keys[..n]) == |set i: int | 0 <= i < n && keys[i] in m && m[keys[i]].Str?|
  {
    var front := keys[..n];
    HitsCount(m, front);
    assert (set i: int | 0 <= i < n && keys[i] in m && m[keys[i]].Str?) ==
           set i: int | 0 <= i < |front| && front[i] in m && m[front[i]].Str?;
  }

  lemma NoOther(m: Map, keys: seq<Bytes>)
    ensures FirstOther(m, keys) == |keys| <==> forall k :: k in keys && k in m ==> !m[k].Other?
  {
    var n := FirstOther(m, keys);
    assert n < |keys| ==> keys[n] in keys;
  }

  lemma GetAnswers(s: Session, m: Map, header: Bytes, keys: seq<Bytes>)
    requires Ready(s) && IsHeader(header, MAGIC_G)
    requires keys != [] && forall i :: 0 <= i < |keys| ==> |keys[i]| <= KEY_LIMIT
    ensures var (s', m', out) := Receive(s, m, [header] + KeyLines(keys) + [ETB]);
            var n := FirstOther(m, keys);
            && m' == m
            && out == Encode(Replies(m, keys[..n]))
            && s'.getCount == Hits(m, keys[..n]) && s'.tmpget == |keys| - Hits(m, keys[..n])
            && (n == |keys| ==> Ready(s') && s'.keys == [])
            && (n < |keys| ==> s'.status == Panicked)
  {
    var lines, n := [header] + KeyLines(keys), FirstOther(m, keys);
    ReceiveOne(s, m, header);
    var s1 := Step(s, m, header).0;
    KeysCollected(s1, m, keys);
    ReceiveAppend(s, m, [header], KeyLines(keys));
    var s2 := Receive(s, m, lines).0;
    ReceiveOne(s2, m, ETB);
    ReceiveAppend(s, m, lines, [ETB]);
    AnswersAreLines(m, keys[..n], |keys|);
    assert keys[..|keys|] == keys;
    var out := Encode(Replies(m, keys[..n]));
    assert [] + out == out;
  }

  // ---------- other lines after a key ----------

  /** A line that a session with a key ignores. */
  predicate Idle(line: Bytes) {
    |line| == 1 && line != ETB && line != BEL
  }

  /** After a key, in GET and in DEL mode, every single byte but BEL and ETB is ignored, so that the first
      other line decides. */
  lemma {:induction false} KeyWaits(s: Session, m: Map, lines: seq<Bytes>, last: Bytes)
    requires s.status == Open && s.mode in {ModeGet, ModeDel} && s.state == 1
    requires forall i :: 0 <= i < |lines| ==> Idle(lines[i])
    ensures Receive(s, m, lines + [last]) == Step(s, m, last)
    decreases |lines|
  {
    if lines == [] {
      assert lines + [last] == [last];
      ReceiveOne(s, m, last);
    } else {
      assert (lines + [last])[0] == lines[0] && (lines + [last])[1..] == lines[1..] + [last];
      assert Step(s, m, lines[0]) == (s, m, []);
      KeyWaits(s, m, lines[1..], last);
      var out := Step(s, m, last).2;
      assert [] + out == out;
      hide Step;
    }
  }

  /** What a line after a key does: one of another length than 1 is answered with CAN and ends the session,
      BEL asks for a further key, ETB ends the command, any other byte is ignored. */
  lemma LineAfterKey(s: Session, m: Map, last: Bytes)
    requires s.status == Open && s.mode in {ModeGet, ModeDel} && s.state == 1
    ensures var (s', m', out) := Step(s, m, last);
            && (|last| != 1 ==> s' == s.(status := Closed) && m' == m && out == [0x18, 0x0D, 0x0A])
            && (last == [0x07] ==> s' == s.(state := 0) && m' == m && out == [])
            && (|last| == 1 && last[0] != 0x07 && last[0] != 0x17 ==> s' == s && m' == m && out == [])
  {
  }

  /** A GET up to the line that decides, for any keys so far and any ignored lines. */
  lemma GetDecided(s: Session, m: Map, header: Bytes, keys: seq<Bytes>, lines: seq<Bytes>, last: Bytes)
    requires Ready(s) && IsHeader(header, MAGIC_G)
    requires keys != [] && forall i :: 0 <= i < |keys| ==> |keys[i]| <= KEY_LIMIT
    requires forall i :: 0 <= i < |lines| ==> Idle(lines[i])
    ensures var (s', m', out) := Receive(s, m, ([header] + KeyLines(keys)) + (lines + [last]));
            && (|last| != 1 ==> s'.status == Closed && m' == m && out == [0x18, 0x0D, 0x0A])
            && (last == [0x07] || Idle(last) ==>
                  && s'.status == Open && s'.mode == ModeGet && s'.keys == keys && m' == m && out == []
                  && s'.state == if last == [0x07] then 0 else 1)
            && (last == [0x17] ==> (s', m', out) == Receive(s, m, [header] + KeyLines(keys) + [ETB]))
  {
    var front := [header] + KeyLines(keys);
    ReceiveOne(s, m, header);
    var s1 := Step(s, m, header).0;
    KeysCollected(s1, m, keys);
    ReceiveAppend(s, m, [header], KeyLines(keys));
    var s2 := Receive(s, m, front).0;
    KeyWaits(s2, m, lines, last);
    ReceiveAppend(s, m, front, lines + [last]);
    LineAfterKey(s2, m, last);
    ReceiveOne(s2, m, ETB);
    ReceiveAppend(s, m, front, [ETB]);
    var out := Step(s2, m, last).2;
    assert [] + out == out;
    hide Step, Receive;
  }

  /** The same for DEL. */
  lemma DelDecided(s: Session, m: Map, header: Bytes, keys: seq<Bytes>, lines: seq<Bytes>, last: Bytes)
    requires Ready(s) && IsHeader(header, MAGIC_D)
    requires keys != [] && forall i :: 0 <= i < |keys| ==> |keys[i]| <= KEY_LIMIT
    requires forall i :: 0 <= i < |lines| ==> Idle(lines[i])
    ensures var (s', m', out) := Receive(s, m, ([header] + KeyLines(keys)) + (lines + [last]));
            && (|last| != 1 ==> s'.status == Closed && m' == m && out == [0x18, 0x0D, 0x0A])
            && (last == [0x07] || Idle(last) ==>
                  && s'.status == Open && s'.mode == ModeDel && s'.keys == keys && m' == m && out == []
                  && s'.state == if last == [0x07] then 0 else 1)
            && (last == [0x17] ==> (s', m', out) == Receive(s, m, [header] + KeyLines(keys) + [ETB]))
  {
    var front := [header] + KeyLines(keys);
    ReceiveOne(s, m, header);
    var s1 := Step(s, m, header).0;
    DelKeysCollected(s1, m, keys);
    ReceiveAppend(s, m, [header], KeyLines(keys));
    var s2 := Receive(s, m, front).0;
    KeyWaits(s2, m, lines, last);
    ReceiveAppend(s, m, front, lines + [last]);
    LineAfterKey(s2, m, last);
    ReceiveOne(s2, m, ETB);
    ReceiveAppend(s, m, front, [ETB]);
    var out := Step(s2, m, last).2;
    assert [] + out == out;
    hide Step, Receive;
  }

  /** A key line: more than 2^30 bytes are answered with CAN and end the session with nothing stored, any
      other line is taken as the key. */
  lemma KeyTooLong(s: Session, m: Map, key: Bytes)
    requires s.status == Open && s.mode != NoMode && s.state == 0
    ensures var (s', m', out) := Step(s, m, key);
            && m' == m
            && (|key| > 1073741824 ==> s' == s.(status := Closed) && out == [0x18, 0x0D, 0x0A])
            && (|key| <= 1073741824 ==>
                  && s'.status == Open && s'.state == 1 && out == []
                  && (if s.mode == ModeSet then s'.key == key && s'.keys == s.keys else s'.keys == s.keys + [key]))
  {
  }

  /** The same for the value of a SET. */
  lemma ValueTooLong(s: Session, m: Map, val: Bytes)
    requires s.status == Open && s.mode == ModeSet && s.state == 1 && s.vals.Some?
    ensures var (s', m', out) := Step(s, m, val);
            && m' == m
            && (|val| > 1073741824 ==> s' == s.(status := Closed) && out == [0x18, 0x0D, 0x0A])
            && (|val| <= 1073741824 ==>
                  && s'.status == Open && s'.state == 2 && out == []
                  && s'.keys == s.keys + [s.key] && s'.vals == Some(s.vals.value[s.key := val]))
  {
  }

  /** An answer is the stored value, or a lone NUL for a key that is absent or stored as nil. */
  lemma AnswerIs(m: Map, k: Bytes, lenk: nat)
    ensures !HoldsOther(m, k) ==> Answer(m, k, lenk, []) == ReplyLine(m, k) + CRLF
    ensures HoldsOther(m, k) ==> Answer(m, k, lenk, []) == []
  {
  }

  const SET_HEADER: Bytes := [MAGIC_S, BAR, 0x31]
  const GET_HEADER: Bytes := [MAGIC_G, BAR, 0x31]

  lemma Headers()
    ensures IsHeader(SET_HEADER, MAGIC_S) && IsHeader(GET_HEADER, MAGIC_G)
  {
    var one: Bytes := [0x31];
    assert SET_HEADER[2..] == one && GET_HEADER[2..] == one;
    assert one[1..] == [] && UpToBar(one) == one;
    assert one[..0] == [] && Decimal(one) == 1;
  }

  /** GET of one key. */
  lemma GetOne(s: Session, m: Map, k: Bytes)
    requires Ready(s) && |k| <= KEY_LIMIT
    ensures var (s', m', out) := Receive(s, m, [GET_HEADER, k, ETB]);
            && m' == m
            && (if HoldsOther(m, k) then s'.status == Panicked && out == []
                else Ready(s') && out == ReplyLine(m, k) + CRLF)
  {
    hide IsHeader, Receive, KeyLines, Encode, FirstOther;
    Headers();
    GetFraming(s, m, GET_HEADER, [k]);
    KeyLinesLast([k]);
    assert [GET_HEADER] + [k] + [ETB] == [GET_HEADER, k, ETB];
    OneReply(m, k);
  }

  lemma OneReply(m: Map, k: Bytes)
    ensures FirstOther(m, [k]) == if HoldsOther(m, k) then 0 else 1
    ensures Encode(Replies(m, [k][..FirstOther(m, [k])])) == if HoldsOther(m, k) then [] else ReplyLine(m, k) + CRLF
  {
    assert [k][0] == k && [k][..0] == [] && [k][..1] == [k];
    if HoldsOther(m, k) {
      assert Replies(m, []) == [];
    } else {
      EncodeAppend([], ReplyLine(m, k));
      assert Replies(m, [k]) == [] + [ReplyLine(m, k)];
      assert [] + ReplyLine(m, k) == ReplyLine(m, k);
    }
  }

  /** The shortest way to a panic: ask for a key that holds a number stored over HTTP. */
  lemma PanicsOnNumber(s: Session, m: Map, k: Bytes)
    requires Ready(s) && |k| <= KEY_LIMIT && HoldsOther(m, k)
    ensures var (s', m', out) := Receive(s, m, [GET_HEADER, k, ETB]);
            s'.status == Panicked && out == []
  {
    GetOne(s, m, k);
  }

  /** Some lines can make the server panic if and only if the database holds, under a key that a line can
      name, a value that is neither nil nor a string. */
  lemma PanicsIff(s: Session, m: Map)
    requires Ready(s)
    ensures (exists lines ::
               (forall i :: 0 <= i < |lines| ==> LineSafe(lines[i])) && Receive(s, m, lines).0.status == Panicked)
            <==> exists k :: |k| <= KEY_LIMIT && LineSafe(k) && k in m && m[k].Other?
  {
    AllTextMeans(m);
    hide AllText;
    if AllText(m) {
      NoLinesPanic(s, m);
    } else {
      var k :| |k| <= KEY_LIMIT && LineSafe(k) && k in m && m[k].Other?;
      PanicsOnNumber(s, m, k);
      var lines := [GET_HEADER, k, ETB];
      assert LineSafe(GET_HEADER) && LineSafe(ETB);
      hide Receive, LineSafe;
      assert forall i :: 0 <= i < |lines| ==> LineSafe(lines[i]);
    }
  }

  lemma AllTextMeans(m: Map)
    ensures AllText(m) <==> !exists k :: |k| <= KEY_LIMIT && LineSafe(k) && k in m && m[k].Other?
  {
    hide LineSafe;
  }

  lemma NoLinesPanic(s: Session, m: Map)
    requires Ready(s) && AllText(m)
    ensures forall lines | forall i :: 0 <= i < |lines| ==> LineSafe(lines[i]) ::
              Receive(s, m, lines).0.status != Panicked
  {
    assert Consistent(s) && KeysOnLines(s);
    hide Receive, AllText, LineSafe, Consistent, KeysOnLines;
    forall lines | forall i :: 0 <= i < |lines| ==> LineSafe(lines[i])
      ensures Receive(s, m, lines).0.status != Panicked
    {
      NeverPanics(s, m, lines);
    }
  }

  // ---------- SET ----------

  /** The pair has been read and the session waits for the end of the command. */
  ghost predicate Waiting(s: Session, k: Bytes, v: Bytes) {
    && s.status == Open && s.mode == ModeSet && s.state == 2 && s.key == [] && s.keys == [k]
    && s.vals.Some? && k in s.vals.value && s.vals.value[k] == v
    && s.setCount == 0 && s.tmpset == 1
  }

  lemma PairRead(s: Session, m: Map, header: Bytes, k: Bytes, v: Bytes)
    requires Ready(s) && IsHeader(header, MAGIC_S)
    ensures var (s', m', out) := Receive(s, m, [header, k, v]);
            && m' == m
            && (|k| <= KEY_LIMIT && |v| <= VAL_LIMIT ==> Waiting(s', k, v) && out == [])
            && (|k| > KEY_LIMIT || |v| > VAL_LIMIT ==> s'.status == Closed && out == CAN + CRLF)
  {
    ReceiveTwo(s, m, header, k);
    var (s2, m2, out2) := Receive(s, m, [header, k]);
    ReceiveAppend(s, m, [header, k], [v]);
    assert [header, k] + [v] == [header, k, v];
    assert [] + [k] == [k] && [] + (CAN + CRLF) == CAN + CRLF;
    if s2.status == Open { ReceiveOne(s2, m, v); } else { assert out2 + [] == out2; }
  }

  lemma PairEnds(s: Session, m: Map, k: Bytes, v: Bytes)
    requires Waiting(s, k, v)
    ensures var (s', m', out) := Step(s, m, ETB);
            && Ready(s') && s'.keys == [] && s'.vals == None
            && m' == m[k := Str(v)] && out == ACK + CRLF
            && s'.setCount == 1 && s'.tmpset == 0
  {
    StoreOne(m, k, s.vals.value);
  }

  /** A SET header, one key, its value and ETB: the pair is stored, ACK comes back, and the session is
      ready again with no keys or values kept. */
  lemma SetFraming(s: Session, m: Map, header: Bytes, k: Bytes, v: Bytes)
    requires Ready(s) && IsHeader(header, MAGIC_S)
    requires |k| <= KEY_LIMIT && |v| <= VAL_LIMIT
    ensures var (s', m', out) := Receive(s, m, [header, k, v, ETB]);
            && Ready(s') && s'.keys == [] && s'.vals == None
            && m' == m[k := Str(v)] && out == ACK + CRLF
            && s'.setCount == 1 && s'.tmpset == 0
  {
    PairRead(s, m, header, k, v);
    var s3 := Receive(s, m, [header, k, v]).0;
    PairEnds(s3, m, k, v);
    ReceiveOne(s3, m, ETB);
    ReceiveAppend(s, m, [header, k, v], [ETB]);
    assert [header, k, v] + [ETB] == [header, k, v, ETB];
    assert [] + (ACK + CRLF) == ACK + CRLF;
  }

  /** A line that a session waiting for the end of a SET ignores. */
  predicate Lone(line: Bytes) {
    |line| == 1 && line != ETB
  }

  /** The comment in the source lets BEL announce another pair; the code stays where it is and ignores
      every single-byte line but ETB, so that the first other line decides. */
  lemma {:induction false} WaitsForEnd(s: Session, m: Map, lines: seq<Bytes>, last: Bytes)
    requires s.status == Open && s.mode == ModeSet && s.state == 2
    requires forall i :: 0 <= i < |lines| ==> Lone(lines[i])
    ensures Receive(s, m, lines + [last]) == Step(s, m, last)
    decreases |lines|
  {
    if lines == [] {
      assert lines + [last] == [last];
      ReceiveOne(s, m, last);
    } else {
      assert (lines + [last])[0] == lines[0] && (lines + [last])[1..] == lines[1..] + [last];
      assert Step(s, m, lines[0]) == (s, m, []);
      WaitsForEnd(s, m, lines[1..], last);
      var out := Step(s, m, last).2;
      assert [] + out == out;
    }
  }

  /** What follows the first pair, up to the first line the session does not ignore: ETB stores the first
      pair and nothing else, a line of any other length ends the session with CAN and nothing stored,
      and until then nothing happens. */
  lemma PairDecided(s: Session, m: Map, header: Bytes, k: Bytes, v: Bytes, lines: seq<Bytes>, last: Bytes)
    requires Ready(s) && IsHeader(header, MAGIC_S)
    requires |k| <= KEY_LIMIT && |v| <= VAL_LIMIT
    requires forall i :: 0 <= i < |lines| ==> Lone(lines[i])
    ensures var (s', m', out) := Receive(s, m, [header, k, v] + (lines + [last]));
            && (last == ETB ==> Ready(s') && m' == m[k := Str(v)] && out == ACK + CRLF)
            && (|last| != 1 ==> s'.status == Closed && m' == m && out == CAN + CRLF)
            && (Lone(last) ==> Waiting(s', k, v) && m' == m && out == [])
  {
    PairRead(s, m, header, k, v);
    var s3 := Receive(s, m, [header, k, v]).0;
    PairEnds(s3, m, k, v);
    WaitsForEnd(s3, m, lines, last);
    ReceiveAppend(s, m, [header, k, v], lines + [last]);
    var out := Step(s3, m, last).2;
    assert [] + out == out;
  }

  /** A second pair of single bytes is lost without a sign: ACK comes back and only the first is stored. */
  lemma SecondPairLost(s: Session, m: Map, header: Bytes, k: Bytes, v: Bytes, a: Bytes, b: Bytes)
    requires Ready(s) && IsHeader(header, MAGIC_S)
    requires |k| <= KEY_LIMIT && |v| <= VAL_LIMIT && Lone(a) && Lone(b)
    ensures var (s', m', out) := Receive(s, m, [header, k, v, BEL, a, b, ETB]);
            Ready(s') && m' == m[k := Str(v)] && out == ACK + CRLF
  {
    PairDecided(s, m, header, k, v, [BEL, a, b], ETB);
    assert [header, k, v] + ([BEL, a, b] + [ETB]) == [header, k, v, BEL, a, b, ETB];
  }

  /** Any other second key ends the command: with CAN and nothing stored, or, if it is ETB, with ACK. */
  lemma SecondPairRefused(s: Session, m: Map, header: Bytes, k: Bytes, v: Bytes, second: Bytes)
    requires Ready(s) && IsHeader(header, MAGIC_S)
    requires |k| <= KEY_LIMIT && |v| <= VAL_LIMIT
    ensures var (s', m', out) := Receive(s, m, [header, k, v, BEL, second]);
            && (s'.status == Closed && m' == m && out == CAN + CRLF <==> |second| != 1)
            && (Ready(s') && m' == m[k := Str(v)] && out == ACK + CRLF <==> second == ETB)
            && (Waiting(s', k, v) && m' == m && out == [] <==> Lone(second))
  {
    PairDecided(s, m, header, k, v, [BEL], second);
    assert [header, k, v] + ([BEL] + [second]) == [header, k, v, BEL, second];
  }

  // ---------- SET of several pairs ----------

  /** The lines of the pairs after the first: `BEL k2 v2 BEL k3 v3 ...`. */
  function LaterLines(pairs: seq<(Bytes, Bytes)>): seq<Bytes> {
    if pairs == [] then [] else [BEL, pairs[0].0, pairs[0].1] + LaterLines(pairs[1..])
  }

  function StorePairs(m: Map, pairs: seq<(Bytes, Bytes)>): Map {
    if pairs == [] then m
    else
      var (k, v) := pairs[|pairs| - 1];
      StorePairs(m, pairs[..|pairs| - 1])[k := Str(v)]
  }

  /** The value the pairs give to a key: that of the last pair with the key. */
  function LastValue(pairs: seq<(Bytes, Bytes)>, k: Bytes): Option<Bytes> {
    if pairs == [] then None
    else if pairs[|pairs| - 1].0 == k then Some(pairs[|pairs| - 1].1)
    else LastValue(pairs[..|pairs| - 1], k)
  }

  /** The database gives every key of the pairs the value they give it. */
  ghost predicate StoredAlready(m: Map, pairs: seq<(Bytes, Bytes)>) {
    forall k :: LastValue(pairs, k).Some? ==> MapGet(m, k) == Some(Str(LastValue(pairs, k).value))
  }

  lemma {:induction false} StoredPairs(m: Map, pairs: seq<(Bytes, Bytes)>, k: Bytes)
    ensures MapGet(StorePairs(m, pairs), k) ==
            match LastValue(pairs, k) case Some(v) => Some(Str(v)) case None => MapGet(m, k)
    decreases |pairs|
  {
    if pairs != [] { StoredPairs(m, pairs[..|pairs| - 1], k); }
  }

  lemma StoringAgain(m: Map, pairs: seq<(Bytes, Bytes)>)
    ensures StorePairs(m, pairs) == m <==> StoredAlready(m, pairs)
  {
    forall k
      ensures MapGet(StorePairs(m, pairs), k) ==
              match LastValue(pairs, k) case Some(v) => Some(Str(v)) case None => MapGet(m, k)
    {
      StoredPairs(m, pairs, k);
    }
    SameMap(StorePairs(m, pairs), m);
  }

  lemma SameMap(a: Map, b: Map)
    ensures a == b <==> forall k :: MapGet(a, k) == MapGet(b, k)
  {
    if forall k :: MapGet(a, k) == MapGet(b, k) {
      forall k ensures k in a <==> k in b { assert MapGet(a, k) == MapGet(b, k); }
      forall k | k in a ensures a[k] == b[k] { assert MapGet(a, k) == MapGet(b, k); }
    }
  }

  lemma {:induction false} LaterLone(pairs: seq<(Bytes, Bytes)>)
    ensures (forall l :: l in LaterLines(pairs) ==> Lone(l)) <==> forall p :: p in pairs ==> Lone(p.0) && Lone(p.1)
    decreases |pairs|
  {
    if pairs != [] {
      var p, rest := pairs[0], pairs[1..];
      LaterLone(rest);
      assert forall l :: l in LaterLines(pairs) <==> l == BEL || l == p.0 || l == p.1 || l in LaterLines(rest);
      assert forall q :: q in pairs <==> q == p || q in rest;
    }
  }

  /** A command leaves its mode only with an answer. */
  lemma {:induction false} ReadyHasAnswered(s: Session, m: Map, lines: seq<Bytes>)
    requires Consistent(s) && s.status == Open && (s.mode == NoMode ==> lines != [])
    ensures var (s', m', out) := Receive(s, m, lines); Ready(s') ==> out != []
    decreases |lines|
  {
    if lines != [] {
      var (s1, m1, out1) := Step(s, m, lines[0]);
      StepConsistent(s, m, lines[0]);
      LeavesWithAnswer(s, m, lines[0]);
      if s1.status == Open && s1.mode != NoMode { ReadyHasAnswered(s1, m1, lines[1..]); }
    }
  }

  lemma LeavesWithAnswer(s: Session, m: Map, line: Bytes)
    requires Consistent(s) && s.status == Open
    ensures var (s', m', out) := Step(s, m, line); s'.status == Open && s'.mode == NoMode ==> out != []
  {
    if s.mode == ModeGet && s.state == 1 && line == ETB && FirstOther(m, s.keys) == |s.keys| {
      var n := |s.keys| - 1;
      assert s.keys[..|s.keys|] == s.keys;
      assert Answer(m, s.keys[n], |s.keys|, s.key) != [];
    }
  }

  /** The first line that is not ignored, if any, else the length. */
  function FirstDecisive(lines: seq<Bytes>): (n: nat)
    ensures n <= |lines|
    ensures n < |lines| ==> !Lone(lines[n])
    ensures forall i :: 0 <= i < n ==> Lone(lines[i])
  {
    if lines == [] || !Lone(lines[0]) then 0 else 1 + FirstDecisive(lines[1..])
  }

  lemma LaterDecided(s: Session, m: Map, k: Bytes, v: Bytes, later: seq<Bytes>)
    requires Waiting(s, k, v)
    ensures var (s', m', out) := Receive(s, m, later + [ETB]);
            && (Ready(s') && out == ACK + CRLF <==> forall l :: l in later ==> Lone(l))
            && (Ready(s') && out == ACK + CRLF ==> m' == m[k := Str(v)])
  {
    var n := FirstDecisive(later);
    PairEnds(s, m, k, v);
    if n == |later| {
      WaitsForEnd(s, m, later, ETB);
    } else {
      var front, x, rest := later[..n], later[n], later[n + 1..] + [ETB];
      assert later + [ETB] == (front + [x]) + rest;
      assert x in later;
      WaitsForEnd(s, m, front, x);
      ReceiveAppend(s, m, front + [x], rest);
      if x == ETB {
        var (s1, m1, out1) := Step(s, m, ETB);
        ReadyHasAnswered(s1, m1, rest);
        var more := Receive(s1, m1, rest).2;
        assert more != [] ==> |out1 + more| > |out1|;
      }
    }
  }

  /** A SET of several pairs is acknowledged, and nothing more is said, if and only if the first pair is
      within the limits and every later key and value is a single byte other than ETB; then only the
      first pair has been stored. */
  lemma SeveralAcknowledged(s: Session, m: Map, header: Bytes, k: Bytes, v: Bytes, rest: seq<(Bytes, Bytes)>)
    requires Ready(s) && IsHeader(header, MAGIC_S)
    ensures var (s', m', out) := Receive(s, m, [header, k, v] + (LaterLines(rest) + [ETB]));
            && (Ready(s') && out == ACK + CRLF <==>
                  |k| <= KEY_LIMIT && |v| <= VAL_LIMIT && forall p :: p in rest ==> Lone(p.0) && Lone(p.1))
            && (Ready(s') && out == ACK + CRLF ==> m' == m[k := Str(v)])
  {
    var later := LaterLines(rest) + [ETB];
    PairRead(s, m, header, k, v);
    var s3 := Receive(s, m, [header, k, v]).0;
    ReceiveAppend(s, m, [header, k, v], later);
    LaterLone(rest);
    if s3.status == Open {
      LaterDecided(s3, m, k, v, LaterLines(rest));
      var out := Receive(s3, m, later).2;
      assert [] + out == out;
    }
  }

  /** So a SET of several pairs is acknowledged and stores them all if and only if the first is within
      the limits and the others are single bytes other than ETB that the database holds already. */
  lemma SeveralStored(s: Session, m: Map, header: Bytes, k: Bytes, v: Bytes, rest: seq<(Bytes, Bytes)>)
    requires Ready(s) && IsHeader(header, MAGIC_S)
    ensures var (s', m', out) := Receive(s, m, [header, k, v] + (LaterLines(rest) + [ETB]));
            Ready(s') && out == ACK + CRLF && m' == StorePairs(m[k := Str(v)], rest) <==>
            && |k| <= KEY_LIMIT && |v| <= VAL_LIMIT
            && (forall p :: p in rest ==> Lone(p.0) && Lone(p.1)) && StoredAlready(m[k := Str(v)], rest)
  {
    SeveralAcknowledged(s, m, header, k, v, rest);
    StoringAgain(m[k := Str(v)], rest);
  }

  // ---------- DEL ----------

  /** A session in DEL mode never takes another command: it stays in that mode until it ends. */
  lemma {:induction false} DelNeverLeaves(s: Session, m: Map, lines: seq<Bytes>)
    requires s.mode == ModeDel && s.status != Panicked
    ensures var s' := Receive(s, m, lines).0; s'.mode == ModeDel && s'.status != Panicked
    decreases |lines|
  {
    if lines != [] && s.status == Open {
      var (s1, m1, out1) := Step(s, m, lines[0]);
      DelNeverLeaves(s1, m1, lines[1..]);
    }
  }

  /** What a DEL answers for each key: NUL where the key was there to delete, ACK where it was not or an
      earlier one has deleted it. */
  function DelReplies(m: Map, keys: seq<Bytes>): (r: seq<Bytes>)
    ensures |r| == |keys|
  {
    seq(|keys|, i requires 0 <= i < |keys| => if keys[i] in m && keys[i] !in keys[..i] then NUL else ACK)
  }

  function Without(m: Map, keys: seq<Bytes>): Map {
    map k | k in m && k !in keys :: m[k]
  }

  lemma {:induction false} DeleteAllIs(m: Map, keys: seq<Bytes>)
    ensures DeleteAll(m, keys, []) == (Without(m, keys), Encode(DelReplies(m, keys)))
    decreases |keys|
  {
    if keys == [] {
      assert Without(m, keys) == m;
    } else {
      var n := |keys| - 1;
      var front, k := keys[..n], keys[n];
      DeleteAllIs(m, front);
      DeleteNext(m, front, k);
      assert keys == front + [k];
      assert NUL + [] + CRLF == NUL + CRLF;
    }
  }

  lemma DeleteNext(m: Map, front: seq<Bytes>, k: Bytes)
    ensures Without(m, front + [k]) == Without(m, front) - {k}
    ensures Encode(DelReplies(m, front + [k])) ==
            Encode(DelReplies(m, front)) + ((if k in Without(m, front) then NUL else ACK) + CRLF)
  {
    var keys := front + [k];
    var reply := if k in m && k !in front then NUL else ACK;
    assert DelReplies(m, keys) == DelReplies(m, front) + [reply] by {
      assert keys[..|front|] == front && forall i :: 0 <= i < |front| ==> front[..i] == keys[..i];
    }
    EncodeAppend(DelReplies(m, front), reply);
    var out := Encode(DelReplies(m, front));
    assert out + (reply + CRLF) == out + reply + CRLF;
    hide Encode, DelReplies;
    assert forall x :: x in keys <==> x in front || x == k;
  }

  /** ETB in DEL mode deletes the collected keys and answers each, and changes nothing else of the session:
      the keys stay, so that a further ETB deletes and answers them all again. */
  lemma DelRepeats(s: Session, m: Map)
    requires s.mode == ModeDel && s.state == 1 && s.key == []
    ensures Step(s, m, ETB) == (s, Without(m, s.keys), Encode(DelReplies(m, s.keys)))
  {
    DeleteAllIs(m, s.keys);
  }

  lemma DelKeyCollected(s: Session, m: Map, k: Bytes)
    requires s.status == Open && s.mode == ModeDel && s.state == 1 && |k| <= KEY_LIMIT
    ensures Receive(s, m, [BEL, k]) == (s.(numBy := s.numBy - 1, keys := s.keys + [k]), m, [])
  {
    var none: Bytes := [];
    assert none + none == none;
    ReceiveTwo(s, m, BEL, k);
  }

  lemma DelFirstKey(s: Session, m: Map, k: Bytes)
    requires s.status == Open && s.mode == ModeDel && s.state == 0 && s.keys == [] && |k| <= KEY_LIMIT
    ensures Receive(s, m, [k]) == (s.(numBy := s.numBy - 1, keys := [k], state := 1), m, [])
  {
    ReceiveOne(s, m, k);
    assert [] + [k] == [k];
  }

  lemma {:induction false} DelKeysCollected(s: Session, m: Map, keys: seq<Bytes>)
    requires s.status == Open && s.mode == ModeDel && s.state == 0 && s.keys == []
    requires keys != [] && forall i :: 0 <= i < |keys| ==> |keys[i]| <= KEY_LIMIT
    ensures Receive(s, m, KeyLines(keys)) == (s.(numBy := s.numBy - |keys|, keys := keys, state := 1), m, [])
    decreases |keys|
  {
    hide Receive, Step, KeyLines;
    var n := |keys| - 1;
    KeyLinesLast(keys);
    if n == 0 {
      DelFirstKey(s, m, keys[0]);
      assert keys == [keys[0]];
    } else {
      var front := keys[..n];
      DelKeysCollected(s, m, front);
      ReceiveAppend(s, m, KeyLines(front), [BEL, keys[n]]);
      DelKeyCollected(Receive(s, m, KeyLines(front)).0, m, keys[n]);
      NothingMore();
      assert front + [keys[n]] == keys;
    }
  }

  /** DEL of any keys deletes them all and answers each, ACK exactly where there was nothing to delete. The
      session stays in DEL mode with the keys kept. */
  lemma DelAnswerInverted(s: Session, m: Map, header: Bytes, keys: seq<Bytes>)
    requires Ready(s) && IsHeader(header, MAGIC_D)
    requires keys != [] && forall i :: 0 <= i < |keys| ==> |keys[i]| <= KEY_LIMIT
    ensures var (s', m', out) := Receive(s, m, [header] + KeyLines(keys) + [ETB]);
            && m' == Without(m, keys) && out == Encode(DelReplies(m, keys))
            && (forall i :: 0 <= i < |keys| ==>
                  DelReplies(m, keys)[i] == if keys[i] in m && keys[i] !in keys[..i] then [0x00] else [0x06])
            && s'.status == Open && s'.mode == ModeDel && s'.state == 1 && s'.keys == keys && s'.key == []
  {
    var lines := [header] + KeyLines(keys);
    ReceiveOne(s, m, header);
    var s1 := Step(s, m, header).0;
    DelKeysCollected(s1, m, keys);
    ReceiveAppend(s, m, [header], KeyLines(keys));
    var s2 := Receive(s, m, lines).0;
    ReceiveOne(s2, m, ETB);
    ReceiveAppend(s, m, lines, [ETB]);
    DelRepeats(s2, m);
    var out := Encode(DelReplies(m, keys));
    assert [] + out == out;
  }
}
