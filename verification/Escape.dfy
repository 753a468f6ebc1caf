/** Escaping of line ends before sending and after retrieval (client/clilib/client.go:493-520). */
module Escape {
  import opened Wrappers
  import opened Protocol
  import opened ClientSpec

  const BACKSLASH: bv8 := 0x5C
  const LETTER_N: bv8 := 0x6E
  const LETTER_R: bv8 := 0x72

  /** `strings.Replace(s, from, to, -1)`: every occurrence, left to right, without overlaps. */
  function Replace(s: Bytes, from: Bytes, to: Bytes): Bytes
    requires from != []
    decreases |s|
  {
    if s == [] then []
    else if from <= s then to + Replace(s[|from|..], from, to)
    else [s[0]] + Replace(s[1..], from, to)
  }

  /** Replace a character by a backslash and a letter, and back. */
  function Mask(s: Bytes, c: bv8, letter: bv8): Bytes {
    Replace(s, [c], [BACKSLASH, letter])
  }

  function Unmask(s: Bytes, c: bv8, letter: bv8): Bytes {
    Replace(s, [BACKSLASH, letter], [c])
  }

  function EscapeBytes(s: Bytes): Bytes {
    Mask(Mask(s, LF, LETTER_N), CR, LETTER_R)
  }

  function UnEscapeBytes(s: Bytes): Bytes {
    Unmask(Unmask(s, LF, LETTER_N), CR, LETTER_R)
  }

  /** s contains a backslash followed by the letter. */
  ghost predicate HasPair(s: Bytes, letter: bv8) {
    exists i :: 0 <= i < |s| - 1 && s[i] == BACKSLASH && s[i + 1] == letter
  }

  // ---------- one character at a time ----------

  lemma MaskHead(s: Bytes, c: bv8, letter: bv8)
    requires s != []
    ensures Mask(s, c, letter) == (if s[0] == c then [BACKSLASH, letter] else [s[0]]) + Mask(s[1..], c, letter)
  {
    assert [c] <= s <==> s[0] == c;
  }

  lemma UnmaskHead(s: Bytes, c: bv8, letter: bv8)
    requires s != []
    ensures Unmask(s, c, letter) ==
            if |s| > 1 && s[0] == BACKSLASH && s[1] == letter then [c] + Unmask(s[2..], c, letter)
            else [s[0]] + Unmask(s[1..], c, letter)
  {
    assert [BACKSLASH, letter] <= s <==> |s| > 1 && s[0] == BACKSLASH && s[1] == letter;
  }

  lemma UnmaskSkip(a: bv8, s: Bytes, c: bv8, letter: bv8)
    requires a != BACKSLASH || s == [] || s[0] != letter
    ensures Unmask([a] + s, c, letter) == [a] + Unmask(s, c, letter)
  {
    assert ([a] + s)[1..] == s;
    UnmaskHead([a] + s, c, letter);
  }

  lemma UnmaskPair(s: Bytes, c: bv8, letter: bv8)
    ensures Unmask([BACKSLASH, letter] + s, c, letter) == [c] + Unmask(s, c, letter)
  {
    assert ([BACKSLASH, letter] + s)[2..] == s;
    UnmaskHead([BACKSLASH, letter] + s, c, letter);
  }

  lemma MaskOther(a: bv8, s: Bytes, c: bv8, letter: bv8)
    requires a != c
    ensures Mask([a] + s, c, letter) == [a] + Mask(s, c, letter)
  {
    assert ([a] + s)[1..] == s;
    MaskHead([a] + s, c, letter);
  }

  /** The first character of a masked string. */
  lemma MaskFirst(s: Bytes, c: bv8, letter: bv8)
    ensures s == [] <==> Mask(s, c, letter) == []
    ensures s != [] ==> Mask(s, c, letter)[0] == if s[0] == c then BACKSLASH else s[0]
  {
    if s != [] { MaskHead(s, c, letter); }
  }

  // ---------- laws ----------

  /** Unmasking undoes masking, up to the pairs that were there before. */
  lemma {:induction false} UnmaskMask(s: Bytes, c: bv8, letter: bv8)
    requires c != BACKSLASH && c != letter && letter != BACKSLASH
    ensures Unmask(Mask(s, c, letter), c, letter) == Unmask(s, c, letter)
    decreases |s|
  {
    if s != [] {
      hide Replace;
      var rest := s[1..];
      MaskHead(s, c, letter);
      UnmaskHead(s, c, letter);
      MaskFirst(rest, c, letter);
      if s[0] == c {
        UnmaskPair(Mask(rest, c, letter), c, letter);
        UnmaskMask(rest, c, letter);
      } else if s[0] == BACKSLASH && rest != [] && rest[0] == letter {
        MaskHead(rest, c, letter);
        assert rest[1..] == s[2..];
        var tail := Mask(s[2..], c, letter);
        assert [BACKSLASH] + ([letter] + tail) == [BACKSLASH, letter] + tail;
        UnmaskPair(tail, c, letter);
        UnmaskMask(s[2..], c, letter);
      } else {
        UnmaskSkip(s[0], Mask(rest, c, letter), c, letter);
        UnmaskMask(rest, c, letter);
      }
    }
  }

  /** Masking restores what unmasking took away. */
  lemma {:induction false} MaskUnmask(s: Bytes, c: bv8, letter: bv8)
    requires c != BACKSLASH && c != letter
    ensures Mask(Unmask(s, c, letter), c, letter) == Mask(s, c, letter)
    decreases |s|
  {
    if s != [] {
      hide Replace, Mask, Unmask;
      var rest := s[1..];
      MaskHead(s, c, letter);
      UnmaskHead(s, c, letter);
      if |s| > 1 && s[0] == BACKSLASH && s[1] == letter {
        var u := Unmask(s[2..], c, letter);
        MaskUnmask(s[2..], c, letter);
        MaskHead([c] + u, c, letter);
        assert ([c] + u)[1..] == u;
        MaskHead(rest, c, letter);
        assert rest[1..] == s[2..];
        var tail := Mask(s[2..], c, letter);
        assert [BACKSLASH] + ([letter] + tail) == [BACKSLASH, letter] + tail;
      } else {
        var u := Unmask(rest, c, letter);
        MaskUnmask(rest, c, letter);
        MaskHead([s[0]] + u, c, letter);
        assert ([s[0]] + u)[1..] == u;
      }
    }
  }

  /** Two characters with different letters, none of them a backslash. */
  predicate Apart(c: bv8, letter: bv8, d: bv8, other: bv8) {
    && c != d && letter != other && c != other && d != letter
    && BACKSLASH !in {c, d, letter, other}
  }

  /** Masking c and unmasking d may change places. */
  ghost predicate Commutes(s: Bytes, c: bv8, letter: bv8, d: bv8, other: bv8) {
    Unmask(Mask(s, c, letter), d, other) == Mask(Unmask(s, d, other), c, letter)
  }

  lemma CommutesAtMasked(rest: Bytes, c: bv8, letter: bv8, d: bv8, other: bv8)
    requires Apart(c, letter, d, other) && Commutes(rest, c, letter, d, other)
    ensures Commutes([c] + rest, c, letter, d, other)
  {
    hide Replace;
    var s, masked, u := [c] + rest, Mask(rest, c, letter), Unmask(rest, d, other);
    assert s[1..] == rest;
    MaskHead(s, c, letter);
    UnmaskHead(s, d, other);
    assert [BACKSLASH, letter] + masked == [BACKSLASH] + ([letter] + masked);
    UnmaskSkip(BACKSLASH, [letter] + masked, d, other);
    UnmaskSkip(letter, masked, d, other);
    MaskHead([c] + u, c, letter);
    assert ([c] + u)[1..] == u;
    assert [BACKSLASH] + ([letter] + Mask(u, c, letter)) == [BACKSLASH, letter] + Mask(u, c, letter);
  }

  lemma CommutesAtPair(rest: Bytes, c: bv8, letter: bv8, d: bv8, other: bv8)
    requires Apart(c, letter, d, other) && Commutes(rest, c, letter, d, other)
    ensures Commutes([BACKSLASH, other] + rest, c, letter, d, other)
  {
    hide Replace;
    var tail := Mask(rest, c, letter);
    UnmaskPair(rest, d, other);
    MaskOther(other, rest, c, letter);
    MaskOther(BACKSLASH, [other] + rest, c, letter);
    assert [BACKSLASH] + ([other] + rest) == [BACKSLASH, other] + rest;
    assert [BACKSLASH] + ([other] + tail) == [BACKSLASH, other] + tail;
    UnmaskPair(tail, d, other);
    MaskOther(d, Unmask(rest, d, other), c, letter);
  }

  lemma CommutesAtOther(a: bv8, rest: Bytes, c: bv8, letter: bv8, d: bv8, other: bv8)
    requires Apart(c, letter, d, other) && Commutes(rest, c, letter, d, other)
    requires a != c && (a == BACKSLASH && rest != [] ==> rest[0] != other)
    ensures Commutes([a] + rest, c, letter, d, other)
  {
    hide Replace;
    MaskFirst(rest, c, letter);
    MaskOther(a, rest, c, letter);
    UnmaskSkip(a, rest, d, other);
    UnmaskSkip(a, Mask(rest, c, letter), d, other);
    MaskOther(a, Unmask(rest, d, other), c, letter);
  }

  /** Masking one character does not interfere with unmasking another. */
  lemma {:induction false} MaskUnmaskCommute(s: Bytes, c: bv8, letter: bv8, d: bv8, other: bv8)
    requires Apart(c, letter, d, other)
    ensures Commutes(s, c, letter, d, other)
    decreases |s|
  {
    if s != [] {
      hide Commutes, Replace, Apart;
      var rest := s[1..];
      assert s == [s[0]] + rest;
      if s[0] == c {
        MaskUnmaskCommute(rest, c, letter, d, other);
        CommutesAtMasked(rest, c, letter, d, other);
      } else if s[0] == BACKSLASH && rest != [] && rest[0] == other {
        MaskUnmaskCommute(s[2..], c, letter, d, other);
        CommutesAtPair(s[2..], c, letter, d, other);
        assert s == [BACKSLASH, other] + s[2..];
      } else {
        MaskUnmaskCommute(rest, c, letter, d, other);
        CommutesAtOther(s[0], rest, c, letter, d, other);
      }
    }
  }

  /** Unmasking shortens a string by one for each pair; without pairs it changes nothing. */
  lemma {:induction false} UnmaskLength(s: Bytes, c: bv8, letter: bv8)
    requires letter != BACKSLASH
    ensures |Unmask(s, c, letter)| <= |s|
    ensures HasPair(s, letter) ==> |Unmask(s, c, letter)| < |s|
    ensures !HasPair(s, letter) ==> Unmask(s, c, letter) == s
    decreases |s|
  {
    if s != [] {
      UnmaskHead(s, c, letter);
      if |s| > 1 && s[0] == BACKSLASH && s[1] == letter {
        UnmaskLength(s[2..], c, letter);
        assert HasPair(s, letter);
      } else {
        var rest := s[1..];
        UnmaskLength(rest, c, letter);
        if HasPair(s, letter) {
          var i :| 0 <= i < |s| - 1 && s[i] == BACKSLASH && s[i + 1] == letter;
          assert rest[i - 1] == BACKSLASH && rest[i] == letter;
        }
        if HasPair(rest, letter) {
          var i :| 0 <= i < |rest| - 1 && rest[i] == BACKSLASH && rest[i + 1] == letter;
          assert s[i + 1] == BACKSLASH && s[i + 2] == letter;
        }
      }
    }
  }

  lemma {:induction false} MaskRemoves(s: Bytes, c: bv8, letter: bv8, x: bv8)
    requires x != BACKSLASH && x != letter && (x == c || forall i :: 0 <= i < |s| ==> s[i] != x)
    ensures forall i :: 0 <= i < |Mask(s, c, letter)| ==> Mask(s, c, letter)[i] != x
    decreases |s|
  {
    if s != [] {
      MaskHead(s, c, letter);
      MaskRemoves(s[1..], c, letter, x);
    }
  }

  /** Escaping, character by character: LF becomes a backslash and an n, CR a backslash and an r, and every
      other character stays. */
  lemma EscapeHead(s: Bytes)
    ensures s == [] ==> EscapeBytes(s) == []
    ensures s != [] ==>
              EscapeBytes(s) ==
              (if s[0] == 0x0A then [0x5C, 0x6E] else if s[0] == 0x0D then [0x5C, 0x72] else [s[0]])
              + EscapeBytes(s[1..])
  {
    hide Replace;
    MaskFirst(s, LF, LETTER_N);
    MaskFirst(Mask(s, LF, LETTER_N), CR, LETTER_R);
    if s != [] {
      MaskHead(s, LF, LETTER_N);
      var rest := Mask(s[1..], LF, LETTER_N);
      if s[0] == LF {
        assert [BACKSLASH, LETTER_N] + rest == [BACKSLASH] + ([LETTER_N] + rest);
        MaskOther(LETTER_N, rest, CR, LETTER_R);
        MaskOther(BACKSLASH, [LETTER_N] + rest, CR, LETTER_R);
        var tail := Mask(rest, CR, LETTER_R);
        assert [BACKSLASH] + ([LETTER_N] + tail) == [BACKSLASH, LETTER_N] + tail;
      } else {
        MaskHead([s[0]] + rest, CR, LETTER_R);
        assert ([s[0]] + rest)[1..] == rest;
      }
    }
  }

  /** An escaped string contains neither CR nor LF. */
  lemma EscapedIsLineSafe(s: Bytes)
    ensures LineSafe(EscapeBytes(s))
    ensures forall i :: 0 <= i < |EscapeBytes(s)| ==> EscapeBytes(s)[i] != CR
  {
    MaskRemoves(s, LF, LETTER_N, LF);
    MaskRemoves(Mask(s, LF, LETTER_N), CR, LETTER_R, LF);
    MaskRemoves(Mask(s, LF, LETTER_N), CR, LETTER_R, CR);
  }

  /** Unescaping sees no difference between a string and its escaped form. */
  lemma UnEscapeEscape(s: Bytes)
    ensures UnEscapeBytes(EscapeBytes(s)) == UnEscapeBytes(s)
  {
    MaskUnmaskCommute(Mask(s, LF, LETTER_N), CR, LETTER_R, LF, LETTER_N);
    UnmaskMask(s, LF, LETTER_N);
    UnmaskMask(Unmask(s, LF, LETTER_N), CR, LETTER_R);
  }

  /** Nor does escaping between a string and its unescaped form. */
  lemma EscapeUnEscape(s: Bytes)
    ensures EscapeBytes(UnEscapeBytes(s)) == EscapeBytes(s)
  {
    var u := Unmask(s, LF, LETTER_N);
    MaskUnmaskCommute(u, LF, LETTER_N, CR, LETTER_R);
    MaskUnmask(Mask(u, LF, LETTER_N), CR, LETTER_R);
    MaskUnmask(s, LF, LETTER_N);
  }

  /** Unescaping gives the string back exactly when it holds no literal backslash-n or backslash-r. */
  lemma EscapeRoundTrip(s: Bytes)
    ensures UnEscapeBytes(EscapeBytes(s)) == s <==> !HasPair(s, LETTER_N) && !HasPair(s, LETTER_R)
  {
    var u := Unmask(s, LF, LETTER_N);
    UnEscapeEscape(s);
    UnmaskLength(s, LF, LETTER_N);
    UnmaskLength(u, CR, LETTER_R);
  }

  /** Two raw keys share one stored key if and only if they unescape to the same string: a line end and
      its two-character spelling cannot be told apart, and nothing else collides. */
  lemma KeysCollide(a: Bytes, b: Bytes)
    ensures EscapeBytes(a) == EscapeBytes(b) <==> UnEscapeBytes(a) == UnEscapeBytes(b)
  {
    UnEscapeEscape(a);
    UnEscapeEscape(b);
    EscapeUnEscape(a);
    EscapeUnEscape(b);
  }

  /** LF and backslash-n are one stored key; keys without literal pairs never collide. */
  lemma KeysApart(a: Bytes, b: Bytes)
    requires !HasPair(a, LETTER_N) && !HasPair(a, LETTER_R) && !HasPair(b, LETTER_N) && !HasPair(b, LETTER_R)
    ensures EscapeBytes(a) == EscapeBytes(b) <==> a == b
    ensures EscapeBytes([LF]) == EscapeBytes([BACKSLASH, LETTER_N])
  {
    EscapeRoundTrip(a);
    EscapeRoundTrip(b);
    UnmaskPair([], LF, LETTER_N);
    assert [BACKSLASH, LETTER_N] + [] == [BACKSLASH, LETTER_N] && [LF] + [] == [LF];
    UnmaskLength([LF], LF, LETTER_N);
    KeysCollide([LF], [BACKSLASH, LETTER_N]);
  }

  lemma EscapeFirst(s: Bytes)
    ensures EscapeBytes(s) == [] <==> s == []
    ensures s != [] ==> (EscapeBytes(s)[0] == 0 <==> s[0] == 0)
    ensures s != [] && s[0] == 0 ==> (|EscapeBytes(s)| > 1 <==> |s| > 1)
  {
    var t := Mask(s, LF, LETTER_N);
    MaskFirst(s, LF, LETTER_N);
    MaskFirst(t, CR, LETTER_R);
    if s != [] {
      MaskHead(s, LF, LETTER_N);
      MaskHead(t, CR, LETTER_R);
      MaskFirst(s[1..], LF, LETTER_N);
      MaskFirst(t[1..], CR, LETTER_R);
    }
  }

  /** With escaping, keys and values may hold line ends. What was set is got back unchanged, after any run
      that stays settled and does not set the same stored key, if and only if the value holds no literal
      backslash-n or backslash-r, is not empty and, for a caller that passes `nfk`, is not a NUL followed
      by more. */
  lemma EscapedRoundTrip(c: Conn, m: Map, k: Bytes, v: Bytes, rs: seq<Request>, nfk: Option<Bytes>)
    requires Settled(c)
    requires |EscapeBytes(k)| <= KEY_LIMIT && |EscapeBytes(v)| <= VAL_LIMIT
    requires forall i :: 0 <= i < |rs| ==> Allowed(rs[i]) && (rs[i].SetReq? ==> rs[i].key != EscapeBytes(k))
    ensures var (c1, m1, resp) := SockSet(c, m, EscapeBytes(k), EscapeBytes(v));
            var (c2, m2) := Perform(c1, m1, rs);
            var (c3, m3, answer) := SockGet(c2, m2, EscapeBytes(k), Answered(false, [], nfk));
            && (Settled(c3) <==> Readable(m[EscapeBytes(k) := Str(EscapeBytes(v))], rs))
            && (Settled(c3) ==>
                  (answer.Some? && answer.value.found && UnEscapeBytes(answer.value.resp) == v <==>
                   !HasPair(v, LETTER_N) && !HasPair(v, LETTER_R) && v != []
                   && !(nfk.Some? && v[0] == 0 && |v| > 1)))
  {
    EscapedIsLineSafe(k);
    EscapedIsLineSafe(v);
    EscapeRoundTrip(v);
    EscapeFirst(v);
    RoundTrip(c, m, EscapeBytes(k), EscapeBytes(v), rs, nfk);
    hide EscapeBytes, UnEscapeBytes, HasPair, SockSet, SockGet, Perform, Readable, Settled;
  }
}
