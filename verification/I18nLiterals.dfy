/**
 The back end's literals. A string is escaped by five successive replacements and written between quotes; read back
 as a Go literal it is the same string exactly when it is well-formed UTF-8.
 */
module I18nLiterals {
  import opened Wrappers
  import opened Utf8
  import opened GoLiterals

  /** strings.ReplaceAll for a pattern of one byte. */
  function ReplaceAll(s: bytes, pattern: byte, replacement: bytes): bytes {
    if s == [] then []
    else (if s[0] == pattern then replacement else [s[0]]) + ReplaceAll(s[1..], pattern, replacement)
  }

  lemma Reassociate(a: bytes, b: bytes, c: bytes)
    ensures a + b + c == a + (b + c)
  {
  }

  lemma {:induction false} ReplaceAllAppends(a: bytes, b: bytes, pattern: byte, replacement: bytes)
    ensures ReplaceAll(a + b, pattern, replacement) ==
            ReplaceAll(a, pattern, replacement) + ReplaceAll(b, pattern, replacement)
  {
    if a == [] {
      assert a + b == b;
    } else {
      ReplaceAllAppends(a[1..], b, pattern, replacement);
      assert (a + b)[1..] == a[1..] + b;
      Reassociate(if a[0] == pattern then replacement else [a[0]],
                  ReplaceAll(a[1..], pattern, replacement), ReplaceAll(b, pattern, replacement));
    }
  }

  /** What one byte becomes. */
  function EscapeByte(b: byte): bytes {
    if b == BACKSLASH then [BACKSLASH, BACKSLASH]
    else if b == QUOTE then [BACKSLASH, QUOTE]
    else if b == NEWLINE then [BACKSLASH, 0x6E]
    else if b == TAB then [BACKSLASH, 0x74]
    else if b == RETURN then [BACKSLASH, 0x72]
    else [b]
  }

  function Escaped(s: bytes): bytes {
    if s == [] then [] else EscapeByte(s[0]) + Escaped(s[1..])
  }

  /** The five passes in the order they are made; the backslash must come first. */
  function Passes(s: bytes): bytes {
    var s1 := ReplaceAll(s, BACKSLASH, [BACKSLASH, BACKSLASH]);
    var s2 := ReplaceAll(s1, QUOTE, [BACKSLASH, QUOTE]);
    var s3 := ReplaceAll(s2, NEWLINE, [BACKSLASH, 0x6E]);
    var s4 := ReplaceAll(s3, TAB, [BACKSLASH, 0x74]);
    ReplaceAll(s4, RETURN, [BACKSLASH, 0x72])
  }

  lemma PassesAppend(a: bytes, b: bytes)
    ensures Passes(a + b) == Passes(a) + Passes(b)
  {
    ReplaceAllAppends(a, b, BACKSLASH, [BACKSLASH, BACKSLASH]);
    var a1, b1 := ReplaceAll(a, BACKSLASH, [BACKSLASH, BACKSLASH]), ReplaceAll(b, BACKSLASH, [BACKSLASH, BACKSLASH]);
    ReplaceAllAppends(a1, b1, QUOTE, [BACKSLASH, QUOTE]);
    var a2, b2 := ReplaceAll(a1, QUOTE, [BACKSLASH, QUOTE]), ReplaceAll(b1, QUOTE, [BACKSLASH, QUOTE]);
    ReplaceAllAppends(a2, b2, NEWLINE, [BACKSLASH, 0x6E]);
    var a3, b3 := ReplaceAll(a2, NEWLINE, [BACKSLASH, 0x6E]), ReplaceAll(b2, NEWLINE, [BACKSLASH, 0x6E]);
    ReplaceAllAppends(a3, b3, TAB, [BACKSLASH, 0x74]);
    var a4, b4 := ReplaceAll(a3, TAB, [BACKSLASH, 0x74]), ReplaceAll(b3, TAB, [BACKSLASH, 0x74]);
    ReplaceAllAppends(a4, b4, RETURN, [BACKSLASH, 0x72]);
  }

  lemma ReplaceOne(b: byte, pattern: byte, replacement: bytes)
    ensures ReplaceAll([b], pattern, replacement) == if b == pattern then replacement else [b]
  {
    assert [b][1..] == [];
  }

  lemma ReplaceTwo(a: byte, b: byte, pattern: byte, replacement: bytes)
    requires a != pattern
    ensures ReplaceAll([a, b], pattern, replacement) == [a] + if b == pattern then replacement else [b]
  {
    ReplaceAllAppends([a], [b], pattern, replacement);
    assert [a] + [b] == [a, b];
    ReplaceOne(a, pattern, replacement);
    ReplaceOne(b, pattern, replacement);
  }

  lemma PassesOne(b: byte)
    ensures Passes([b]) == EscapeByte(b)
  {
    ReplaceOne(b, BACKSLASH, [BACKSLASH, BACKSLASH]);
    if b == BACKSLASH {
      ReplaceTwo(b, b, QUOTE, [BACKSLASH, QUOTE]);
      LaterPassesKeep(b, b);
    } else {
      ReplaceOne(b, QUOTE, [BACKSLASH, QUOTE]);
      if b == QUOTE {
        LaterPassesKeep(BACKSLASH, QUOTE);
      } else {
        ReplaceOne(b, NEWLINE, [BACKSLASH, 0x6E]);
        ReplaceOne(b, TAB, [BACKSLASH, 0x74]);
        ReplaceOne(b, RETURN, [BACKSLASH, 0x72]);
        ReplaceTwo(BACKSLASH, 0x6E, TAB, [BACKSLASH, 0x74]);
        ReplaceTwo(BACKSLASH, 0x6E, RETURN, [BACKSLASH, 0x72]);
        ReplaceTwo(BACKSLASH, 0x74, RETURN, [BACKSLASH, 0x72]);
      }
    }
  }

  lemma LaterPassesKeep(a: byte, b: byte)
    requires a == BACKSLASH && b in {BACKSLASH, QUOTE}
    ensures var newlines := ReplaceAll([a, b], NEWLINE, [BACKSLASH, 0x6E]);
            ReplaceAll(ReplaceAll(newlines, TAB, [BACKSLASH, 0x74]), RETURN, [BACKSLASH, 0x72]) == [a, b]
  {
    ReplaceTwo(a, b, NEWLINE, [BACKSLASH, 0x6E]);
    ReplaceTwo(a, b, TAB, [BACKSLASH, 0x74]);
    ReplaceTwo(a, b, RETURN, [BACKSLASH, 0x72]);
  }

  /** Five passes over the whole string are one map over its bytes: no pass touches what an earlier one wrote. */
  lemma {:induction false} PassesAreOneMap(s: bytes)
    ensures Passes(s) == Escaped(s)
  {
    if s != [] {
      PassesAppend([s[0]], s[1..]);
      PassesOne(s[0]);
      PassesAreOneMap(s[1..]);
      assert s == [s[0]] + s[1..];
    }
  }

  method EscapeString(text: bytes) returns (s: bytes)
    ensures s == Escaped(text)
  {
    s := text;
    s := ReplaceAll(s, BACKSLASH, [BACKSLASH, BACKSLASH]);
    s := ReplaceAll(s, QUOTE, [BACKSLASH, QUOTE]);
    s := ReplaceAll(s, NEWLINE, [BACKSLASH, 0x6E]);
    s := ReplaceAll(s, TAB, [BACKSLASH, 0x74]);
    s := ReplaceAll(s, RETURN, [BACKSLASH, 0x72]);
    PassesAreOneMap(text);
  }

  // Reading an escaped string back

  /** How many of the first `limit` bytes come before any byte below 0x80. */
  function HighRun(s: bytes, limit: nat): (k: nat)
    ensures k <= limit && k <= |s|
    ensures forall i :: 0 <= i < k ==> !IsAscii(s[i])
    ensures k < limit && k < |s| ==> IsAscii(s[k])
  {
    if limit == 0 || s == [] || IsAscii(s[0]) then 0 else
    var k := HighRun(s[1..], limit - 1);
    assert forall i :: 0 < i <= k ==> s[i] == s[1..][i - 1];
    k + 1
  }

  /** Bytes from 0x80 on are written as they are. */
  lemma {:induction false} HighBytesStay(s: bytes, k: nat)
    requires k <= |s| && forall i :: 0 <= i < k ==> !IsAscii(s[i])
    ensures Escaped(s) == s[..k] + Escaped(s[k..])
  {
    if k > 0 {
      HighBytesStay(s[1..], k - 1);
      assert s[1..][k - 1..] == s[k..];
      assert s[..k] == [s[0]] + s[1..][..k - 1];
      Reassociate([s[0]], s[1..][..k - 1], Escaped(s[k..]));
    } else {
      assert s[0..] == s;
    }
  }

  predicate EndsAt(s: bytes, k: nat) {
    k >= |s| || IsAscii(s[k])
  }

  /** Whether an encoding begins is settled by the bytes from 0x80 on, four at most. */
  lemma EncodingsAreLocal(s: bytes, t: bytes, k: nat)
    requires 1 <= k <= |s| && k <= |t| && s[..k] == t[..k] && forall i :: 0 <= i < k ==> !IsAscii(s[i])
    requires k < 4 ==> EndsAt(s, k) && EndsAt(t, k)
    ensures StartsWell(s) <==> StartsWell(t)
  {
    assert forall i :: 0 <= i < k ==> s[i] == s[..k][i] == t[i];
  }

  lemma LowFront(s: bytes, rest: bytes)
    requires (s == [] || IsAscii(s[0])) && |rest| > 0 && IsAscii(rest[0])
    ensures IsAscii((Escaped(s) + rest)[0])
  {
    if s != [] { assert Escaped(s)[0] == EscapeByte(s[0])[0]; }
  }

  /** Escaping changes no encoding: what is written for a byte below 0x80 lies below 0x80. */
  lemma EscapingKeepsEncodings(s: bytes, rest: bytes)
    requires |s| > 0 && !IsAscii(s[0]) && |rest| > 0 && IsAscii(rest[0])
    ensures StartsWell(Escaped(s) + rest) <==> StartsWell(s)
  {
    var k := HighRun(s, 4);
    var later := Escaped(s[k..]) + rest;
    HighBytesStay(s, k);
    Reassociate(s[..k], Escaped(s[k..]), rest);
    if k < 4 { LowFront(s[k..], rest); }
    FrontIsLocal(s, s[..k], later);
  }

  lemma FrontIsLocal(s: bytes, front: bytes, later: bytes)
    requires 1 <= |front| <= |s| && front == s[..|front|] && forall i :: 0 <= i < |front| ==> !IsAscii(s[i])
    requires |front| < 4 ==> EndsAt(s, |front|) && EndsAt(later, 0)
    ensures StartsWell(front + later) <==> StartsWell(s)
  {
    var t := front + later;
    assert t[..|front|] == front;
    assert |front| < 4 && later != [] ==> t[|front|] == later[0];
    EncodingsAreLocal(s, t, |front|);
  }

  lemma EscapedByteIsRead(b: byte, rest: bytes)
    requires IsAscii(b)
    ensures UnquoteChar(EscapeByte(b) + rest) == Some(Unquoted([b], rest))
    ensures (EscapeByte(b) + rest)[0] != QUOTE
  {
    var t := EscapeByte(b) + rest;
    if |EscapeByte(b)| == 2 {
      assert t[1..][1..] == rest;
    } else {
      assert t[1..] == rest;
    }
  }

  /** The bytes one step of repair takes, and what it puts in their place. */
  function StepSize(s: bytes): (n: nat)
    requires |s| > 0
    ensures 1 <= n <= |s|
  {
    if StartsWell(s) then Size(s[0]) else 1
  }

  function StepValue(s: bytes): bytes
    requires |s| > 0
  {
    if StartsWell(s) then s[..Size(s[0])] else ERROR_BYTES
  }

  lemma SanitizeSteps(s: bytes)
    requires |s| > 0
    ensures Sanitize(s) == StepValue(s) + Sanitize(s[StepSize(s)..])
  {
  }

  lemma FrontIsRead(front: bytes, later: bytes)
    requires |front| > 0 && !IsAscii(front[0])
    requires |front| == if StartsWell(front + later) then Size(front[0]) else 1
    ensures UnquoteChar(front + later) ==
            Some(Unquoted(if StartsWell(front + later) then front else ERROR_BYTES, later))
  {
    var t := front + later;
    assert t[0] == front[0] && t[..|front|] == front && t[|front|..] == later;
    if StartsWell(t) { DecodedIsEncoded(t); }
  }

  lemma StepIsHigh(s: bytes)
    requires |s| > 0 && !IsAscii(s[0])
    ensures forall i :: 0 <= i < StepSize(s) ==> !IsAscii(s[i])
  {
  }

  lemma EscapedStep(s: bytes, rest: bytes)
    requires |s| > 0 && !IsAscii(s[0])
    ensures Escaped(s) + rest == s[..StepSize(s)] + (Escaped(s[StepSize(s)..]) + rest)
  {
    StepIsHigh(s);
    HighBytesStay(s, StepSize(s));
    Reassociate(s[..StepSize(s)], Escaped(s[StepSize(s)..]), rest);
  }

  lemma HighStepIsRead(s: bytes, rest: bytes)
    requires |s| > 0 && !IsAscii(s[0]) && |rest| > 0 && IsAscii(rest[0])
    ensures var t := Escaped(s) + rest;
            t[0] != QUOTE && UnquoteChar(t) == Some(Unquoted(StepValue(s), Escaped(s[StepSize(s)..]) + rest))
  {
    var front, later := s[..StepSize(s)], Escaped(s[StepSize(s)..]) + rest;
    EscapingKeepsEncodings(s, rest);
    EscapedStep(s, rest);
    FrontIsRead(front, later);
    assert (front + later)[0] == s[0];
  }

  lemma LowStepIsRead(s: bytes, rest: bytes)
    requires |s| > 0 && IsAscii(s[0])
    ensures var t := Escaped(s) + rest;
            t[0] != QUOTE && UnquoteChar(t) == Some(Unquoted(StepValue(s), Escaped(s[StepSize(s)..]) + rest))
  {
    Reassociate(EscapeByte(s[0]), Escaped(s[1..]), rest);
    EscapedByteIsRead(s[0], Escaped(s[1..]) + rest);
    assert StepValue(s) == [s[0]];
  }

  lemma RestSteps(t: bytes, c: Unquoted, u: Unquoted)
    requires |t| > 0 && t[0] != QUOTE && UnquoteChar(t) == Some(c) && UnquoteRest(c.tail) == Some(u)
    ensures UnquoteRest(t) == Some(Unquoted(c.value + u.value, u.tail))
  {
  }

  lemma {:induction false} EscapedRestIsRead(s: bytes, rest: bytes)
    ensures UnquoteRest(Escaped(s) + ([QUOTE] + rest)) == Some(Unquoted(Sanitize(s), rest))
    decreases |s|
  {
    var end := [QUOTE] + rest;
    if s == [] {
      assert Escaped(s) + end == end && end[1..] == rest;
    } else {
      if IsAscii(s[0]) { LowStepIsRead(s, end); } else { HighStepIsRead(s, end); }
      var later := s[StepSize(s)..];
      EscapedRestIsRead(later, rest);
      RestSteps(Escaped(s) + end, Unquoted(StepValue(s), Escaped(later) + end), Unquoted(Sanitize(later), rest));
      SanitizeSteps(s);
    }
  }

  /** The literal written for a string. */
  function Quoted(s: bytes): bytes {
    [QUOTE] + Escaped(s) + [QUOTE]
  }

  /** Whatever the string, the literal is well formed and reads back repaired. */
  lemma QuotedIsRead(s: bytes)
    ensures Unquote(Quoted(s)) == Some(Sanitize(s))
  {
    EscapedRestIsRead(s, []);
    assert Quoted(s)[1..] == Escaped(s) + ([QUOTE] + []);
  }

  /** The literal means the string it was written for exactly when that is well-formed UTF-8. */
  lemma QuotedMeansTheSame(s: bytes)
    ensures Unquote(Quoted(s)) == Some(s) <==> ValidUtf8(s)
  {
    QuotedIsRead(s);
    SanitizedIsSame(s);
  }

  /** Once written and read, a string keeps its meaning for good. */
  lemma RepairIsFinal(s: bytes)
    ensures Unquote(Quoted(s)).Some?
    ensures var once := Unquote(Quoted(s)).value; Unquote(Quoted(once)) == Some(once)
  {
    QuotedIsRead(s);
    SanitizedIsValid(s);
    QuotedMeansTheSame(Sanitize(s));
  }

  /** A literal ends with its closing quote: with anything after it, it is none. */
  lemma NothingFollowsTheQuote(s: bytes, rest: bytes)
    requires rest != []
    ensures Unquote(Quoted(s) + rest) == None
  {
    EscapedRestIsRead(s, rest);
    assert (Quoted(s) + rest)[1..] == Escaped(s) + ([QUOTE] + rest);
  }
}
