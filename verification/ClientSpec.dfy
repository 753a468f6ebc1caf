/** The socket client over the wire (client/clilib/client.go:267-341): requests as bytes, the server's
    line reader, and the promise that what was set is what is got. */
module ClientSpec {
  import opened Wrappers
  import opened Protocol

  // ---------- reading lines ----------

  function IndexLF(s: Bytes): (i: nat)
    ensures i <= |s|
    ensures i < |s| ==> s[i] == LF
    ensures forall j :: 0 <= j < i ==> s[j] != LF
  {
    if s == [] || s[0] == LF then 0 else 1 + IndexLF(s[1..])
  }

  function DropCR(s: Bytes): Bytes {
    if s != [] && s[|s| - 1] == CR then s[..|s| - 1] else s
  }

  /** `textproto` ReadLine: up to LF, without it and without one CR before it; None while no line is
      complete. */
  function ReadLine(input: Bytes): (r: Option<(Bytes, Bytes)>)
    ensures r.Some? ==> |r.value.1| < |input|
  {
    var i := IndexLF(input);
    if i == |input| then None else Some((DropCR(input[..i]), input[i + 1..]))
  }

  lemma ReadLineOf(l: Bytes, rest: Bytes)
    requires LineSafe(l)
    ensures ReadLine(l + CRLF + rest) == Some((l, rest))
  {
    var input := l + CRLF + rest;
    assert input[|l|] == CR && input[|l| + 1] == LF;
    assert forall j :: 0 <= j < |l| ==> input[j] == l[j];
    assert IndexLF(input) == |l| + 1;
    assert input[..|l| + 1] == l + [CR];
    assert (l + [CR])[..|l|] == l;
    assert input[|l| + 2..] == rest;
  }

  /** A bare LF ends a line too, and without LF there is none yet. */
  lemma ReadLineBare(l: Bytes, rest: Bytes)
    requires LineSafe(l)
    ensures l == [] || l[|l| - 1] != CR ==> ReadLine(l + [0x0A] + rest) == Some((l, rest))
    ensures ReadLine(l) == None
  {
    var input := l + [0x0A] + rest;
    assert input[|l|] == LF;
    assert forall j :: 0 <= j < |l| ==> input[j] == l[j];
    assert IndexLF(input) == |l| && input[..|l|] == l && input[|l| + 1..] == rest;
  }

  /** A server session fed with bytes; what is left over is an incomplete line. */
  function Serve(s: Session, m: Map, input: Bytes): (Session, Map, Bytes, Bytes)
    decreases |input|
  {
    if s.status != Open then (s, m, [], [])
    else
      match ReadLine(input)
      case None => (s, m, [], input)
      case Some((line, rest)) =>
        var (s1, m1, out1) := Step(s, m, line);
        var (s2, m2, out2, left) := Serve(s1, m1, rest);
        (s2, m2, out1 + out2, left)
  }

  /** A session that started with `total` still to come has sent out and has left to serve. */
  ghost predicate Served(total: (Session, Map, Bytes, Bytes), s: Session, m: Map, out: Bytes, left: Bytes) {
    var rest := Serve(s, m, left);
    total == (rest.0, rest.1, out + rest.2, rest.3)
  }

  lemma ServedStart(s: Session, m: Map, input: Bytes)
    ensures Served(Serve(s, m, input), s, m, [], input)
  {
    var out := Serve(s, m, input).2;
    assert [] + out == out;
  }

  lemma ServedStep(total: (Session, Map, Bytes, Bytes), s: Session, m: Map, out: Bytes, left: Bytes)
    requires Served(total, s, m, out, left) && s.status == Open && ReadLine(left).Some?
    ensures var (line, rest) := ReadLine(left).value;
            var (s1, m1, sent) := Step(s, m, line);
            Served(total, s1, m1, out + sent, rest)
  {
    hide Step, ReadLine;
    var (line, rest) := ReadLine(left).value;
    var (s1, m1, sent) := Step(s, m, line);
    var more := Serve(s1, m1, rest).2;
    assert out + (sent + more) == (out + sent) + more;
  }

  lemma ServedEnd(total: (Session, Map, Bytes, Bytes), s: Session, m: Map, out: Bytes, left: Bytes)
    requires Served(total, s, m, out, left) && (s.status != Open || ReadLine(left) == None)
    ensures total == (s, m, out, if s.status == Open then left else [])
  {
    hide ReadLine;
    assert out + [] == out;
  }

  /** A line that has been read holds no LF. */
  lemma ReadIsLineSafe(input: Bytes)
    ensures ReadLine(input).Some? ==> LineSafe(ReadLine(input).value.0)
  {
    var i := IndexLF(input);
    assert forall j :: 0 <= j < i ==> input[..i][j] == input[j];
  }

  /** Whatever bytes arrive, a server whose keys within a line's reach hold nil or strings does not panic. */
  lemma {:induction false} BytesNeverPanic(s: Session, m: Map, input: Bytes)
    requires Consistent(s) && KeysOnLines(s) && s.status != Panicked && AllText(m)
    ensures Serve(s, m, input).0.status != Panicked
    decreases |input|
  {
    if s.status == Open && ReadLine(input).Some? {
      var (line, rest) := ReadLine(input).value;
      ReadIsLineSafe(input);
      StepOnText(s, m, line);
      var (s1, m1, out1) := Step(s, m, line);
      hide ReadLine, Step, Consistent, KeysOnLines, AllText;
      BytesNeverPanic(s1, m1, rest);
    }
  }

  /** Some bytes on a connection make the server panic if and only if the database holds, under a key within
      the limit and without LF, a value that is neither nil nor a string. */
  lemma BytesPanicIff(s: Session, m: Map)
    requires Ready(s)
    ensures (exists input :: Serve(s, m, input).0.status == Panicked) <==>
            exists k :: |k| <= KEY_LIMIT && 0x0A !in k && k in m && m[k].Other?
  {
    assert forall k :: LineSafe(k) <==> 0x0A !in k;
    assert AllText(m) <==> !exists k :: |k| <= KEY_LIMIT && 0x0A !in k && k in m && m[k].Other? by { hide LineSafe; }
    if AllText(m) {
      forall input ensures Serve(s, m, input).0.status != Panicked { BytesNeverPanic(s, m, input); }
    } else {
      var k :| |k| <= KEY_LIMIT && LineSafe(k) && HoldsOther(m, k);
      PanicsOnNumber(s, m, k);
      ServeLines(s, m, [GET_HEADER, k, ETB]);
    }
  }

  /** Lines sent with CRLF arrive as the same lines. */
  lemma {:induction false} ServeLines(s: Session, m: Map, lines: seq<Bytes>)
    requires forall i :: 0 <= i < |lines| ==> LineSafe(lines[i])
    ensures var (s1, m1, out1) := Receive(s, m, lines);
            Serve(s, m, Encode(lines)) == (s1, m1, out1, [])
    decreases |lines|
  {
    if lines != [] && s.status == Open {
      ReadLineOf(lines[0], Encode(lines[1..]));
      var (s1, m1, out1) := Step(s, m, lines[0]);
      ServeLines(s1, m1, lines[1..]);
    }
  }

  // ---------- the client ----------

  function SetRequest(key: Bytes, val: Bytes): Bytes {
    SET_HEADER + CRLF + key + CRLF + val + CRLF + ETB + CRLF
  }

  function GetRequest(key: Bytes): Bytes {
    GET_HEADER + CRLF + key + CRLF + ETB + CRLF
  }

  /** The requests byte by byte, for the key `k` and the value `v`. */
  lemma RequestBytes()
    ensures SetRequest([0x6B], [0x76]) ==
            [0x53, 0x7C, 0x31, 0x0D, 0x0A, 0x6B, 0x0D, 0x0A, 0x76, 0x0D, 0x0A, 0x17, 0x0D, 0x0A]
    ensures GetRequest([0x6B]) == [0x47, 0x7C, 0x31, 0x0D, 0x0A, 0x6B, 0x0D, 0x0A, 0x17, 0x0D, 0x0A]
  {
  }

  /** A connection: the server's session, bytes the server has not completed to a line, and bytes the
      client has not read yet. */
  datatype Conn = Conn(session: Session, partial: Bytes, inbox: Bytes)

  const CONNECTED := Conn(FRESH, [], [])

  /** Send a request and read one line of reply, if the server completed one. */
  function Exchange(c: Conn, m: Map, request: Bytes): (Conn, Map, Option<Bytes>) {
    var (s, m', out, left) := Serve(c.session, m, c.partial + request);
    var inbox := c.inbox + out;
    match ReadLine(inbox)
    case None => (Conn(s, left, inbox), m', None)
    case Some((reply, rest)) => (Conn(s, left, rest), m', Some(reply))
  }

  /** `SOCK_Set`: the reply line, or an error if it is empty or never comes. */
  function SockSet(c: Conn, m: Map, key: Bytes, val: Bytes): (Conn, Map, Option<Bytes>) {
    var (c', m', reply) := Exchange(c, m, SetRequest(key, val));
    (c', m', if reply == Some([]) then None else reply)
  }

  /** What `SOCK_Get` leaves in its out-pointers; the caller may pass no `nfk`. */
  datatype Answered = Answered(found: bool, resp: Bytes, nfk: Option<Bytes>)

  function Interpret(reply: Bytes, prior: Answered): Answered {
    if |reply| == 0 then prior
    else if reply[0] == 0 && |reply| > 1 && prior.nfk.Some? then prior.(found := false, nfk := Some(reply[1..]))
    else prior.(found := true, resp := reply)
  }

  /** `SOCK_Get`, given what the out-pointers held before; None is an error. */
  function SockGet(c: Conn, m: Map, key: Bytes, prior: Answered): (Conn, Map, Option<Answered>) {
    var (c', m', reply) := Exchange(c, m, GetRequest(key));
    (c', m', match reply case None => None case Some(r) => Some(Interpret(r, prior)))
  }

  /** A connection between two requests. */
  ghost predicate Settled(c: Conn) {
    Ready(c.session) && c.partial == [] && c.inbox == []
  }

  predicate Sendable(s: Bytes, limit: nat) {
    LineSafe(s) && |s| <= limit
  }

  lemma EncodeCons(line: Bytes, lines: seq<Bytes>)
    ensures Encode([line] + lines) == line + CRLF + Encode(lines)
  {
    assert ([line] + lines)[1..] == lines;
  }

  lemma EncodedGet(k: Bytes)
    ensures Encode([GET_HEADER, k, ETB]) == GetRequest(k)
  {
    EncodeCons(ETB, []);
    EncodeCons(k, [ETB]);
    EncodeCons(GET_HEADER, [k, ETB]);
    assert [ETB] + [] == [ETB] && [k] + [ETB] == [k, ETB] && [GET_HEADER] + [k, ETB] == [GET_HEADER, k, ETB];
    var tail := ETB + CRLF;
    assert tail + [] == tail;
    assert GET_HEADER + CRLF + (k + CRLF + tail) == GetRequest(k);
  }

  lemma EncodedSet(k: Bytes, v: Bytes)
    ensures Encode([SET_HEADER, k, v, ETB]) == SetRequest(k, v)
  {
    EncodeCons(ETB, []);
    EncodeCons(v, [ETB]);
    EncodeCons(k, [v, ETB]);
    EncodeCons(SET_HEADER, [k, v, ETB]);
    assert [ETB] + [] == [ETB] && [v] + [ETB] == [v, ETB] && [k] + [v, ETB] == [k, v, ETB];
    assert [SET_HEADER] + [k, v, ETB] == [SET_HEADER, k, v, ETB];
    var tail := ETB + CRLF;
    assert tail + [] == tail;
    assert SET_HEADER + CRLF + (k + CRLF + (v + CRLF + tail)) == SetRequest(k, v);
  }

  lemma SetExchange(c: Conn, m: Map, k: Bytes, v: Bytes)
    requires Settled(c) && Sendable(k, KEY_LIMIT) && Sendable(v, VAL_LIMIT)
    ensures var (c', m', resp) := SockSet(c, m, k, v);
            Settled(c') && m' == m[k := Str(v)] && resp == Some([0x06])
  {
    Headers();
    var lines := [SET_HEADER, k, v, ETB];
    EncodedSet(k, v);
    assert [] + SetRequest(k, v) == SetRequest(k, v);
    ServeLines(c.session, m, lines);
    SetFraming(c.session, m, SET_HEADER, k, v);
    assert [] + (ACK + CRLF) == ACK + CRLF + [];
    ReadLineOf(ACK, []);
  }

  /** The server answers a GET of k with one line. */
  ghost predicate Answerable(m: Map, k: Bytes) {
    !HoldsOther(m, k) && LineSafe(ReplyLine(m, k))
  }

  /** The reply line and its end, read back: exactly a line without LF leaves nothing behind. */
  lemma ReplyRead(reply: Bytes)
    ensures ReadLine(reply + CRLF).Some?
    ensures LineSafe(reply) ==> ReadLine(reply + CRLF) == Some((reply, []))
    ensures !LineSafe(reply) ==> Pending(ReadLine(reply + CRLF).value.1)
  {
    var input := reply + CRLF;
    assert input[|reply| + 1] == LF;
    if LineSafe(reply) {
      ReadLineOf(reply, []);
      assert input + [] == input;
    } else {
      var i :| 0 <= i < |reply| && reply[i] == LF;
      assert input[i] == LF;
      var rest := ReadLine(input).value.1;
      assert rest == input[IndexLF(input) + 1..];
      assert rest[|rest| - 1] == LF;
    }
  }

  /** Replies that nobody has read. */
  predicate Pending(inbox: Bytes) {
    inbox != [] && inbox[|inbox| - 1] == LF
  }

  /** SOCK_Get on a settled connection changes nothing in the database. The connection settles again if
      and only if the reply is one line; then the client has read it. */
  lemma GetExchange(c: Conn, m: Map, k: Bytes, prior: Answered)
    requires Settled(c) && Sendable(k, KEY_LIMIT)
    ensures var (c', m', answer) := SockGet(c, m, k, prior);
            && m' == m
            && (Settled(c') <==> Answerable(m, k))
            && (Settled(c') ==> answer == Some(Interpret(ReplyLine(m, k), prior)))
            && (!Settled(c') ==> Unsettled(c'))
  {
    OneGet(c.session, m, k);
    assert [] + GetRequest(k) == GetRequest(k);
    var reply := ReplyLine(m, k);
    assert [] + (reply + CRLF) == reply + CRLF;
    ReplyRead(reply);
    hide Serve, GetRequest, LineSafe;
  }

  /** The bytes of a GET request at a server between two commands. */
  lemma OneGet(s: Session, m: Map, k: Bytes)
    requires Ready(s) && Sendable(k, KEY_LIMIT)
    ensures var (s', m', out, left) := Serve(s, m, GetRequest(k));
            && m' == m && left == []
            && (if HoldsOther(m, k) then s'.status == Panicked && out == []
                else Ready(s') && out == ReplyLine(m, k) + CRLF)
  {
    EncodedGet(k);
    ServeLines(s, m, [GET_HEADER, k, ETB]);
    GetOne(s, m, k);
    hide Serve, Receive, Encode, ReplyLine;
  }

  /** The server has died, or the client has fallen behind its replies. */
  ghost predicate Unsettled(c: Conn) {
    c.session.status == Panicked || (Ready(c.session) && c.partial == [] && Pending(c.inbox))
  }

  // ---------- runs of a client ----------

  datatype Request = SetReq(key: Bytes, val: Bytes) | GetReq(key: Bytes, prior: Answered)

  ghost predicate Allowed(r: Request) {
    Sendable(r.key, KEY_LIMIT) && (r.SetReq? ==> Sendable(r.val, VAL_LIMIT))
  }

  function PerformOne(c: Conn, m: Map, r: Request): (Conn, Map) {
    match r
    case SetReq(k, v) => var (c', m', resp) := SockSet(c, m, k, v); (c', m')
    case GetReq(k, prior) => var (c', m', answer) := SockGet(c, m, k, prior); (c', m')
  }

  function Perform(c: Conn, m: Map, rs: seq<Request>): (Conn, Map) {
    if rs == [] then (c, m)
    else
      var (c1, m1) := Perform(c, m, rs[..|rs| - 1]);
      PerformOne(c1, m1, rs[|rs| - 1])
  }

  /** The database after a run, if the server takes every request. */
  function After(m: Map, rs: seq<Request>): Map {
    if rs == [] then m
    else
      var before := After(m, rs[..|rs| - 1]);
      match rs[|rs| - 1]
      case SetReq(k, v) => before[k := Str(v)]
      case GetReq(_, _) => before
  }

  /** Every key the run asks for can be answered with one line when it is asked for. */
  ghost predicate Readable(m: Map, rs: seq<Request>) {
    forall i: nat :: i < |rs| && rs[i].GetReq? ==> Answerable(After(m, rs[..i]), rs[i].key)
  }

  lemma ReadableAppend(m: Map, rs: seq<Request>)
    requires rs != []
    ensures var n := |rs| - 1;
            Readable(m, rs) <==>
            Readable(m, rs[..n]) && (rs[n].GetReq? ==> Answerable(After(m, rs[..n]), rs[n].key))
  {
    hide After, Answerable;
    var n := |rs| - 1;
    assert forall i: nat :: i <= n ==> rs[..n][..i] == rs[..i];
  }

  /** One line of what is pending is read, and new replies stay behind. */
  lemma PendingStays(inbox: Bytes, out: Bytes)
    requires Pending(inbox) && Pending(out)
    ensures ReadLine(inbox + out).Some? && Pending(ReadLine(inbox + out).value.1)
  {
    var both := inbox + out;
    assert both[|inbox| - 1] == LF;
    var rest := ReadLine(both).value.1;
    assert rest == both[IndexLF(both) + 1..];
    assert rest[|rest| - 1] == out[|out| - 1];
  }

  lemma SetStaysUnsettled(c: Conn, m: Map, k: Bytes, v: Bytes)
    requires Unsettled(c) && Sendable(k, KEY_LIMIT) && Sendable(v, VAL_LIMIT)
    ensures Unsettled(SockSet(c, m, k, v).0)
  {
    hide ReadLine, SetRequest, Decimal;
    if c.session.status != Panicked {
      Headers();
      EncodedSet(k, v);
      assert [] + SetRequest(k, v) == SetRequest(k, v);
      ServeLines(c.session, m, [SET_HEADER, k, v, ETB]);
      SetFraming(c.session, m, SET_HEADER, k, v);
      PendingStays(c.inbox, ACK + CRLF);
      hide Serve, Receive;
    }
  }

  lemma GetStaysUnsettled(c: Conn, m: Map, k: Bytes, prior: Answered)
    requires Unsettled(c) && Sendable(k, KEY_LIMIT)
    ensures Unsettled(SockGet(c, m, k, prior).0)
  {
    hide ReadLine, GetRequest, Decimal;
    if c.session.status != Panicked {
      OneGet(c.session, m, k);
      assert [] + GetRequest(k) == GetRequest(k);
      if !HoldsOther(m, k) { PendingStays(c.inbox, ReplyLine(m, k) + CRLF); }
      hide Serve, Receive;
    }
  }

  lemma StepUnsettled(c: Conn, m: Map, r: Request)
    requires Unsettled(c) && Allowed(r)
    ensures Unsettled(PerformOne(c, m, r).0)
  {
    match r
    case SetReq(k, v) => SetStaysUnsettled(c, m, k, v);
    case GetReq(k, prior) => GetStaysUnsettled(c, m, k, prior);
  }

  lemma StepSettled(c: Conn, m: Map, r: Request)
    requires Settled(c) && Allowed(r)
    ensures var (c', m') := PerformOne(c, m, r);
            && (Settled(c') <==> r.GetReq? ==> Answerable(m, r.key))
            && (!Settled(c') ==> Unsettled(c'))
            && m' == match r case SetReq(k, v) => m[k := Str(v)] case GetReq(_, _) => m
  {
    match r
    case SetReq(k, v) => SetExchange(c, m, k, v);
    case GetReq(k, prior) => GetExchange(c, m, k, prior);
  }

  /** A run of allowed requests leaves the connection settled if and only if every key it asks for can be
      answered with one line at that point; then the database holds exactly what the run has set. */
  lemma {:induction false} RunSettles(c: Conn, m: Map, rs: seq<Request>)
    requires Settled(c) && forall i :: 0 <= i < |rs| ==> Allowed(rs[i])
    ensures var (c', m') := Perform(c, m, rs);
            && (Settled(c') <==> Readable(m, rs))
            && (Settled(c') ==> m' == After(m, rs))
            && (!Settled(c') ==> Unsettled(c'))
    decreases |rs|
  {
    if rs != [] {
      var front, r := rs[..|rs| - 1], rs[|rs| - 1];
      RunSettles(c, m, front);
      ReadableAppend(m, rs);
      var (c1, m1) := Perform(c, m, front);
      hide PerformOne, Settled, Unsettled, Allowed, Answerable, Readable;
      if Settled(c1) { StepSettled(c1, m1, r); } else { StepUnsettled(c1, m1, r); }
      SettledOnce(Perform(c, m, rs).0);
    }
  }

  lemma SettledOnce(c: Conn)
    ensures !(Settled(c) && Unsettled(c))
  {
  }

  /** What a run sets is all that changes. */
  lemma {:induction false} RunKeeps(m: Map, rs: seq<Request>, key: Bytes)
    requires forall i :: 0 <= i < |rs| && rs[i].SetReq? ==> rs[i].key != key
    ensures MapGet(After(m, rs), key) == MapGet(m, key)
    decreases |rs|
  {
    if rs != [] { RunKeeps(m, rs[..|rs| - 1], key); }
  }

  /** After `SOCK_Set(k, v)` and any run of requests that sets only other keys, `SOCK_Get(k)`. The
      connection has stayed settled exactly when the run asked for nothing the server cannot answer with
      one line; then `SOCK_Get(k)` reports found and v exactly when v is not empty and, for a caller that
      passes `nfk`, is not a NUL followed by more. */
  lemma RoundTrip(c: Conn, m: Map, k: Bytes, v: Bytes, rs: seq<Request>, nfk: Option<Bytes>)
    requires Settled(c) && Sendable(k, KEY_LIMIT) && Sendable(v, VAL_LIMIT)
    requires forall i :: 0 <= i < |rs| ==> Allowed(rs[i]) && (rs[i].SetReq? ==> rs[i].key != k)
    ensures var (c1, m1, resp) := SockSet(c, m, k, v);
            var (c2, m2) := Perform(c1, m1, rs);
            var prior := Answered(false, [], nfk);
            var (c3, m3, answer) := SockGet(c2, m2, k, prior);
            && resp == Some([0x06])
            && (Settled(c3) <==> Readable(m[k := Str(v)], rs))
            && (Settled(c3) ==>
                  && m3 == After(m[k := Str(v)], rs)
                  && answer == Some(Interpret(v, prior))
                  && (v == [] ==> answer == Some(prior))
                  && (nfk.Some? && |v| > 1 && v[0] == 0 ==> answer == Some(Answered(false, [], Some(v[1..]))))
                  && (answer == Some(Answered(true, v, nfk)) <==>
                        v != [] && !(nfk.Some? && v[0] == 0 && |v| > 1)))
  {
    SetExchange(c, m, k, v);
    var (c1, m1, resp) := SockSet(c, m, k, v);
    RunSettles(c1, m1, rs);
    var (c2, m2) := Perform(c1, m1, rs);
    var prior := Answered(false, [], nfk);
    if Settled(c2) {
      RunKeeps(m1, rs, k);
      assert MapGet(m2, k) == Some(Str(v));
      assert ReplyLine(m2, k) == v && Answerable(m2, k);
      GetExchange(c2, m2, k, prior);
    } else {
      GetStaysUnsettled(c2, m2, k, prior);
      SettledOnce(SockGet(c2, m2, k, prior).0);
    }
    hide SockSet, SockGet, Perform, Settled, Unsettled, Readable, After;
  }

  /** A missing key is reported as found, with a lone NUL as its value: the client cannot tell it from
      a key that stores a lone NUL. */
  lemma MissingLooksFound(c: Conn, m: Map, k: Bytes, prior: Answered)
    requires Settled(c) && Sendable(k, KEY_LIMIT) && !Hit(m, k) && !HoldsOther(m, k)
    ensures SockGet(c, m, k, prior).2 == Some(prior.(found := true, resp := [0x00]))
    ensures SockGet(c, m[k := Str(NUL)], k, prior).2 == SockGet(c, m, k, prior).2
  {
    GetExchange(c, m, k, prior);
    GetExchange(c, m[k := Str(NUL)], k, prior);
    hide SockGet, Settled, Unsettled;
  }
}
