/** The server side of a TCP connection (server/socket.go:225-680): the session flags as fields, updated
    line by line, over the database. */
module Socket {
  import opened Wrappers
  import opened Protocol
  import opened ClientSpec
  import Operations

  class Server {
    const db: Operations.XDICK
    var status: Status
    var mode: Mode
    var state: int
    var numBy: int
    var key: Bytes
    var keys: seq<Bytes>
    var vals: Option<map<Bytes, Bytes>>
    var setCount: int
    var tmpset: int
    var getCount: int
    var tmpget: int

    /** The session flags as a value. */
    ghost function Flags(): Session
      reads this
    {
      Session(status, mode, state, numBy, key, keys, vals, setCount, tmpset, getCount, tmpget)
    }

    ghost predicate Valid()
      reads this, db, db.SubDICKs, set s, o | s in db.SubDICKs && o in s.Repr :: o
    {
      db.Valid() && this !in db.Objects() && Consistent(Flags())
    }

    /** How many entries the database may hold after the pairs collected so far are stored. */
    ghost function Load(): nat
      reads this, db
    {
      |db.M| + |keys|
    }

    constructor (db: Operations.XDICK)
      requires db.Valid()
      ensures Valid() && Flags() == FRESH && this.db == db
    {
      this.db := db;
      status, mode, state, numBy, key, keys, vals := Open, NoMode, -1, 0, [], [], None;
      setCount, tmpset, getCount, tmpget := 0, 0, 0, 0;
    }

    /** One line. */
    method Line(line: Bytes) returns (out: Bytes)
      requires Valid() && status == Open && Load() <= Operations.MAX_ENTRIES
      modifies this, db.Objects()
      ensures Valid() && fresh(db.Objects() - old(db.Objects()))
      ensures (Flags(), db.M, out) == Step(old(Flags()), old(db.M), line)
      ensures Load() <= old(Load()) + 1
    {
      StepConsistent(Flags(), db.M, line);
      match mode
      case NoMode => out := HeaderLine(line);
      case ModeSet => out := SetModeLine(line);
      case ModeGet => out := GetModeLine(line);
      case ModeDel => out := DelModeLine(line);
    }

    method HeaderLine(line: Bytes) returns (out: Bytes)
      modifies this
      ensures (Flags(), out) == Header(old(Flags()), line)
      ensures |keys| == 0
    {
      keys := [];
      if vals == None { vals := Some(map[]); }
      if |line| < 3 || line[1] != BAR {
        status := Closed;
        return CAN + CRLF;
      }
      state := -1;
      setCount, tmpset, getCount, tmpget := 0, 0, 0, 0;
      out := [];
      if line[0] == MAGIC_S || line[0] == MAGIC_G || line[0] == MAGIC_D {
        numBy := Str2int(UpToBar(line[2..]));
        if numBy == 0 {
          status := Closed;
          return;
        }
        mode := if line[0] == MAGIC_S then ModeSet else if line[0] == MAGIC_G then ModeGet else ModeDel;
        state := state + 1;
      } else {
        status := Closed;
      }
    }

    method SetModeLine(line: Bytes) returns (out: Bytes)
      requires Valid() && status == Open && mode == ModeSet && Load() <= Operations.MAX_ENTRIES
      modifies this, db.Objects()
      ensures db.Valid() && this !in db.Objects() && fresh(db.Objects() - old(db.Objects()))
      ensures (Flags(), db.M, out) == SetLine(old(Flags()), old(db.M), line)
      ensures Load() <= old(Load()) + 1
    {
      if state == 2 && line == ETB {
        out := EndPair();
      } else {
        hide SetLine, Operations.XDICK.Valid;
        out := PairLine(line);
      }
    }

    /** ETB in SET mode: store the pairs, acknowledge and leave the mode. */
    method EndPair() returns (out: Bytes)
      requires db.Valid() && this !in db.Objects() && Load() <= Operations.MAX_ENTRIES
      requires state == 2 && vals.Some? && forall k :: k in keys ==> k in vals.value
      modifies this, db.Objects()
      ensures db.Valid() && this !in db.Objects() && fresh(db.Objects() - old(db.Objects()))
      ensures (Flags(), db.M, out) == SetLine(old(Flags()), old(db.M), ETB)
      ensures Load() <= old(Load())
    {
      hide Operations.XDICK.Valid, StoreAll, SetLine;
      ghost var s, m := Flags(), db.M;
      StoreKeys();
      SetLineEnds(s, m, db.M);
      keys, vals := [], None;
      mode := NoMode;
      assert Flags() == PairsStored(s);
      out := ACK + CRLF;
    }

    /** A line in SET mode that does not end the request. */
    method PairLine(line: Bytes) returns (out: Bytes)
      requires mode == ModeSet && state in {0, 1, 2} && !(state == 2 && line == ETB) && vals.Some?
      modifies this
      ensures forall m :: (Flags(), m, out) == SetLine(old(Flags()), m, line)
      ensures |keys| <= old(|keys|) + 1
    {
      out := [];
      if state == 0 {
        if |line| > KEY_LIMIT {
          status := Closed;
          return CAN + CRLF;
        }
        key := line;
        state := state + 1;
      } else if state == 1 {
        if |line| > VAL_LIMIT {
          status := Closed;
          return CAN + CRLF;
        }
        numBy := numBy - 1;
        tmpset := tmpset + 1;
        keys := keys + [key];
        vals := Some(vals.value[key := line]);
        key := [];
        state := state + 1;
      } else if |line| != 1 {
        status := Closed;
        return CAN + CRLF;
      }
    }

    /** Set every collected pair. */
    method StoreKeys()
      requires db.Valid() && this !in db.Objects() && Load() <= Operations.MAX_ENTRIES
      requires vals.Some? && forall k :: k in keys ==> k in vals.value
      modifies this`setCount, this`tmpset, db.Objects()
      ensures db.Valid() && this !in db.Objects() && fresh(db.Objects() - old(db.Objects()))
      ensures StoreAll(old(db.M), keys, vals.value) == Some(db.M)
      ensures setCount == old(setCount) + |keys| && tmpset == old(tmpset) - |keys|
      ensures |db.M| <= old(|db.M|) + |keys|
    {
      hide Operations.XDICK.Valid;
      var i := 0;
      while i < |keys|
        invariant 0 <= i <= |keys| && db.Valid() && this !in db.Objects()
        invariant fresh(db.Objects() - old(db.Objects()))
        invariant StoreAll(db.M, keys[i..], vals.value) == StoreAll(old(db.M), keys, vals.value)
        invariant setCount == old(setCount) + i && tmpset == old(tmpset) - i
        invariant |db.M| <= old(|db.M|) + i
      {
        ghost var m := db.M;
        MapGrows(m, keys[i], Str(vals.value[keys[i]]));
        var ok := db.Set(keys[i], Str(vals.value[keys[i]]));
        if ok {
          tmpset := tmpset - 1;
          setCount := setCount + 1;
        }
        assert keys[i..][1..] == keys[i + 1..];
        i := i + 1;
      }
    }

    method GetModeLine(line: Bytes) returns (out: Bytes)
      requires Valid() && status == Open && mode == ModeGet
      modifies this
      ensures (Flags(), db.M, out) == GetLine(old(Flags()), old(db.M), line)
      ensures |keys| <= old(|keys|) + 1
    {
      out := [];
      if state == 0 {
        if |line| > KEY_LIMIT {
          status := Closed;
          return CAN + CRLF;
        }
        numBy := numBy - 1;
        tmpget := tmpget + 1;
        keys := keys + [line];
        state := state + 1;
      } else {
        if |line| != 1 {
          status := Closed;
          return CAN + CRLF;
        }
        if line == ETB {
          out := EndGet();
        } else if line == BEL {
          state := state - 1;
        }
      }
    }

    /** ETB in GET mode: answer and leave the mode. */
    method EndGet() returns (out: Bytes)
      requires db.Valid() && this !in db.Objects() && status == Open && state == 1
      modifies this
      ensures (Flags(), db.M, out) == GetLine(old(Flags()), old(db.M), ETB)
      ensures |keys| <= old(|keys|)
    {
      hide Operations.XDICK.Valid, Answers, Hits;
      out := AnswerKeys();
      if status == Open {
        mode := NoMode;
        keys := [];
      }
    }

    /** Look up every collected key, in order; a value that is neither nil nor a string fails the type
        assertion. */
    method AnswerKeys() returns (out: Bytes)
      requires db.Valid() && this !in db.Objects() && status == Open
      modifies this`status, this`getCount, this`tmpget
      ensures var served := keys[..FirstOther(db.M, keys)];
              && out == Answers(db.M, served, |keys|, key)
              && getCount == old(getCount) + Hits(db.M, served) && tmpget == old(tmpget) - Hits(db.M, served)
      ensures status == if FirstOther(db.M, keys) == |keys| then Open else Panicked
    {
      out := [];
      NoneReplied(db.M, keys, key);
      hide Operations.XDICK.Valid, Operations.XDICK.Objects;
      hide FirstOther, HoldsOther, Hit, Answer, Hits, Answers, Replied;
      ghost var hits := 0;
      for i := 0 to |keys|
        invariant status == Open && Replied(db.M, keys, key, i, out, hits)
        invariant getCount == old(getCount) + hits && tmpget == old(tmpget) - hits
      {
        var answered, hit, reply := AnswerKey(keys[i], |keys|);
        if !answered {
          AnswersEnd(db.M, keys, key, i, out, hits);
          status := Panicked;
          return;
        }
        OneReplied(db.M, keys, key, i, out, hits);
        out := out + reply;
        if hit {
          tmpget := tmpget - 1;
          getCount := getCount + 1;
          hits := hits + 1;
        }
      }
      AnswersEnd(db.M, keys, key, |keys|, out, hits);
    }

    /** The reply for one key, whether it is a hit, and whether its value passes the type assertion. */
    method AnswerKey(akey: Bytes, lenk: nat) returns (answered: bool, hit: bool, reply: Bytes)
      requires db.Valid()
      ensures answered <==> !HoldsOther(db.M, akey)
      ensures answered ==> reply == Answer(db.M, akey, lenk, key) && (hit <==> Hit(db.M, akey))
    {
      var val := db.Get(akey);
      match val
      case Nil => answered, hit, reply := true, false, NUL + (if lenk > 1 then key else []) + CRLF;
      case Str(text) => answered, hit, reply := true, true, text + CRLF;
      case Other(_) => answered, hit, reply := false, false, [];
    }

    method DelModeLine(line: Bytes) returns (out: Bytes)
      requires Valid() && status == Open && mode == ModeDel
      modifies this, db.Objects()
      ensures db.Valid() && this !in db.Objects() && fresh(db.Objects() - old(db.Objects()))
      ensures (Flags(), db.M, out) == DelLine(old(Flags()), old(db.M), line)
      ensures Load() <= old(Load()) + 1
    {
      hide Operations.XDICK.Valid, DeleteAll;
      if state == 1 && line == ETB {
        out := DeleteKeys();
      } else {
        out := DelKeyLine(line);
      }
    }

    /** A line in DEL mode that does not end the request. */
    method DelKeyLine(line: Bytes) returns (out: Bytes)
      requires mode == ModeDel && state in {0, 1} && !(state == 1 && line == ETB)
      modifies this
      ensures forall m :: (Flags(), m, out) == DelLine(old(Flags()), m, line)
      ensures |keys| <= old(|keys|) + 1
    {
      out := [];
      if state == 0 {
        if |line| > KEY_LIMIT {
          status := Closed;
          return CAN + CRLF;
        }
        numBy := numBy - 1;
        keys := keys + [line];
        state := state + 1;
      } else if |line| != 1 {
        status := Closed;
        return CAN + CRLF;
      } else if line == BEL {
        state := state - 1;
      }
    }

    /** Delete every collected key, in order; a deletion that succeeds is answered with NUL. */
    method DeleteKeys() returns (out: Bytes)
      requires db.Valid() && this !in db.Objects()
      modifies db.Objects()
      ensures db.Valid() && this !in db.Objects() && fresh(db.Objects() - old(db.Objects()))
      ensures (db.M, out) == DeleteAll(old(db.M), keys, key)
      ensures |db.M| <= old(|db.M|)
    {
      out := [];
      hide Operations.XDICK.Valid;
      var i := 0;
      while i < |keys|
        invariant 0 <= i <= |keys| && db.Valid() && this !in db.Objects()
        invariant fresh(db.Objects() - old(db.Objects()))
        invariant (db.M, out) == DeleteAll(old(db.M), keys[..i], key)
        invariant |db.M| <= old(|db.M|)
      {
        MapShrinks(db.M, keys[i]);
        var ok := db.Del(keys[i]);
        out := out + if ok then NUL + key + CRLF else ACK + CRLF;
        assert keys[..i + 1][..i] == keys[..i];
        i := i + 1;
      }
      assert keys[..|keys|] == keys;
    }

    /** The read loop, over the bytes that have arrived; an incomplete line is left over. */
    method Serve(input: Bytes) returns (out: Bytes, left: Bytes)
      requires Valid() && Load() + |input| <= Operations.MAX_ENTRIES
      modifies this, db.Objects()
      ensures Valid() && fresh(db.Objects() - old(db.Objects()))
      ensures (Flags(), db.M, out, left) == ClientSpec.Serve(old(Flags()), old(db.M), input)
      ensures Load() + |left| <= old(Load()) + |input|
    {
      out, left := [], input;
      ghost var total := ClientSpec.Serve(Flags(), db.M, input);
      ServedStart(Flags(), db.M, input);
      hide Operations.XDICK.Valid, Operations.XDICK.Objects, Step, ReadLine, Consistent, ClientSpec.Serve, Served;
      while status == Open
        invariant Valid() && fresh(db.Objects() - old(db.Objects()))
        invariant Load() + |left| <= old(Load()) + |input|
        invariant Served(total, Flags(), db.M, out, left)
        decreases |left|, status == Open
      {
        var read := ReadLine(left);
        if read == None {
          ServedEnd(total, Flags(), db.M, out, left);
          return;
        }
        ServedStep(total, Flags(), db.M, out, left);
        var sent := Line(read.value.0);
        out, left := out + sent, read.value.1;
      }
      ServedEnd(total, Flags(), db.M, out, left);
      left := [];
    }
  }
}
