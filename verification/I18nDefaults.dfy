/**
 The generated file: the map literal's entries as the template writes them, and as Go reads them back. From source
 expression to generated map, no message changes its meaning as long as its text is well-formed UTF-8; compilers refuse
 the file otherwise.
 */
module I18nDefaults {
  import opened Wrappers
  import opened Utf8
  import opened GoLiterals
  import opened I18nExtractor
  import opened I18nLiterals
  import opened I18nGenerator

  const COLON: byte := 0x3A
  const SPACE: byte := 0x20
  const COMMA: byte := 0x2C
  const CLOSE_BRACE: byte := 0x7D

  const OPENING: bytes := [NEWLINE, TAB]
  const BETWEEN: bytes := [COLON, SPACE]
  const END: bytes := [NEWLINE, CLOSE_BRACE, NEWLINE]

  /** One entry on its own line, and everything after it. */
  function Render(m: Message, rest: bytes): bytes {
    OPENING + (Quoted(m.key) + (BETWEEN + (Quoted(m.defaultValue) + ([COMMA] + rest))))
  }

  /** The entries of the map literal and the brace that closes it. */
  function RenderAll(entries: seq<Message>): bytes {
    if entries == [] then END else Render(entries[0], RenderAll(entries[1..]))
  }

  /** An entry in the bytes of the file: a new line, a tab, the two literals with colon and space, and a comma. */
  lemma EntryBytes(m: Message, rest: bytes)
    ensures Render(m, rest) ==
            [0x0A, 0x09, 0x22] + Escaped(m.key) + [0x22, 0x3A, 0x20, 0x22] + Escaped(m.defaultValue)
            + [0x22, 0x2C] + rest
    ensures RenderAll([]) == [0x0A, 0x7D, 0x0A]
  {
  }

  /** A literal at the front and what follows it. */
  function ReadLiteral(s: bytes): Option<Unquoted> {
    if s != [] && s[0] == QUOTE then UnquoteRest(s[1..]) else None
  }

  function Skip(s: bytes, front: bytes): Option<bytes> {
    if front <= s then Some(s[|front|..]) else None
  }

  /** An entry and the text after its comma. */
  function ReadEntry(s: bytes): Option<(Message, bytes)> {
    match Skip(s, OPENING)
    case None => None
    case Some(s1) =>
      match ReadLiteral(s1)
      case None => None
      case Some(key) =>
        match Skip(key.tail, BETWEEN)
        case None => None
        case Some(s2) =>
          match ReadLiteral(s2)
          case None => None
          case Some(value) =>
            match Skip(value.tail, [COMMA])
            case None => None
            case Some(rest) => Some((Message(key.value, value.value), rest))
  }

  function ReadAll(s: bytes): Option<seq<Message>>
    decreases |s|
  {
    if s == END then Some([])
    else match ReadEntry(s)
      case None => None
      case Some((m, rest)) =>
        if |rest| >= |s| then None
        else match ReadAll(rest)
          case None => None
          case Some(more) => Some([m] + more)
  }

  lemma SkipIsRead(front: bytes, rest: bytes)
    ensures Skip(front + rest, front) == Some(rest)
  {
    assert (front + rest)[|front|..] == rest;
  }

  lemma LiteralIsRead(s: bytes, rest: bytes)
    ensures ReadLiteral(Quoted(s) + rest) == Some(Unquoted(Sanitize(s), rest))
  {
    EscapedRestIsRead(s, rest);
    var t := Escaped(s) + ([QUOTE] + rest);
    assert Quoted(s) + rest == [QUOTE] + t;
    assert ([QUOTE] + t)[1..] == t;
  }

  function Repaired(m: Message): Message {
    Message(Sanitize(m.key), Sanitize(m.defaultValue))
  }

  lemma EntryIsRead(m: Message, rest: bytes)
    ensures ReadEntry(Render(m, rest)) == Some((Repaired(m), rest))
    ensures |rest| < |Render(m, rest)| && Render(m, rest) != END
  {
    var s4 := [COMMA] + rest;
    var s3 := Quoted(m.defaultValue) + s4;
    var s2 := BETWEEN + s3;
    var s1 := Quoted(m.key) + s2;
    SkipIsRead(OPENING, s1);
    LiteralIsRead(m.key, s2);
    SkipIsRead(BETWEEN, s3);
    LiteralIsRead(m.defaultValue, s4);
    SkipIsRead([COMMA], rest);
    assert Render(m, rest)[1] == TAB && END[1] == CLOSE_BRACE;
  }

  function RepairedAll(entries: seq<Message>): seq<Message> {
    if entries == [] then [] else [Repaired(entries[0])] + RepairedAll(entries[1..])
  }

  lemma {:induction false} FileIsRead(entries: seq<Message>)
    ensures ReadAll(RenderAll(entries)) == Some(RepairedAll(entries))
  {
    if entries != [] {
      EntryIsRead(entries[0], RenderAll(entries[1..]));
      FileIsRead(entries[1..]);
    }
  }

  predicate WellFormed(m: Message) {
    ValidUtf8(m.key) && ValidUtf8(m.defaultValue)
  }

  lemma {:induction false} RepairChangesNothing(entries: seq<Message>)
    ensures RepairedAll(entries) == entries <==> forall m :: m in entries ==> WellFormed(m)
  {
    if entries != [] {
      var first, rest := entries[0], entries[1..];
      SanitizedIsSame(first.key);
      SanitizedIsSame(first.defaultValue);
      RepairChangesNothing(rest);
      assert entries == [first] + rest;
      assert RepairedAll(entries)[0] == Repaired(first) && RepairedAll(entries)[1..] == RepairedAll(rest);
      assert Repaired(first) == first <==> WellFormed(first);
      assert RepairedAll(entries) == entries <==> Repaired(first) == first && RepairedAll(rest) == rest;
      assert forall m :: m in entries <==> m == first || m in rest;
    }
  }

  /**
   The whole back end: the generated map reads back as exactly the messages given, in key order, exactly when all of
   them are well-formed UTF-8.
   */
  lemma FileMeansItsMessages(messages: seq<Message>, output: Output)
    requires IsOutput(messages, output) && output.Generated?
    ensures ReadAll(RenderAll(output.entries)) == Some(output.entries) <==> forall m :: m in messages ==> WellFormed(m)
  {
    FileIsRead(output.entries);
    RepairChangesNothing(output.entries);
  }

  // What Go compilers accept of the file

  const NUL: byte := 0
  const BYTE_ORDER_MARK: bytes := [0xEF, 0xBB, 0xBF]

  /**
   Text Go compilers accept past a file's first byte: UTF-8 without NUL characters and byte order marks (section
   "Source code representation" of the Go specification).
   */
  predicate SourceText(s: bytes)
    decreases |s|
  {
    s == [] ||
    (StartsWell(s) && s[0] != NUL && s[..Size(s[0])] != BYTE_ORDER_MARK && SourceText(s[Size(s[0])..]))
  }

  predicate MarkAt(s: bytes, i: nat) {
    i + 3 <= |s| && s[i] == 0xEF && s[i + 1] == 0xBB && s[i + 2] == 0xBF
  }

  /** Well-formed text is accepted exactly if no byte is zero and nowhere the three bytes of the mark follow. */
  lemma {:induction false} SourceTextExactly(s: bytes)
    ensures SourceText(s) <==>
            && ValidUtf8(s)
            && (forall i :: 0 <= i < |s| ==> s[i] != 0)
            && (forall i :: 0 <= i < |s| ==> !MarkAt(s, i))
    decreases |s|
  {
    if s != [] && StartsWell(s) {
      var n := Size(s[0]);
      SourceTextExactly(s[n..]);
      assert forall i :: n <= i < |s| ==> s[i] == s[n..][i - n];
      assert forall i :: n <= i < |s| ==> (MarkAt(s, i) <==> MarkAt(s[n..], i - n));
      assert forall i :: 0 < i < n ==> s[i] != 0xEF && s[i] != 0;
      assert MarkAt(s, 0) <==> s[..n] == [0xEF, 0xBB, 0xBF];
      assert forall i :: 0 <= i < |s[n..]| ==> (MarkAt(s[n..], i) <==> MarkAt(s, i + n)) && s[n..][i] == s[i + n];
    }
  }

  lemma {:induction false} SourceTextIsUtf8(s: bytes)
    requires SourceText(s)
    ensures ValidUtf8(s)
    decreases |s|
  {
    if s != [] { SourceTextIsUtf8(s[Size(s[0])..]); }
  }

  lemma {:induction false} AsciiFront(front: bytes, rest: bytes)
    requires forall i :: 0 <= i < |front| ==> IsAscii(front[i]) && front[i] != NUL
    ensures SourceText(front + rest) <==> SourceText(rest)
  {
    if front == [] {
      assert front + rest == rest;
    } else {
      AsciiFront(front[1..], rest);
      assert (front + rest)[1..] == front[1..] + rest;
    }
  }

  lemma HighFront(s: bytes, t: bytes, later: bytes)
    requires |s| > 0 && !IsAscii(s[0]) && t == s[..StepSize(s)] + later && (StartsWell(s) <==> StartsWell(t))
    ensures SourceText(t) <==> StartsWell(s) && s[..StepSize(s)] != BYTE_ORDER_MARK && SourceText(later)
  {
    assert t[0] == s[0];
    if StartsWell(s) { assert t[..Size(s[0])] == s[..Size(s[0])] && t[Size(s[0])..] == later; }
  }

  /** Escaping neither makes nor mends text a compiler refuses. */
  lemma {:induction false} EscapedIsSourceText(s: bytes, rest: bytes)
    requires |rest| > 0 && IsAscii(rest[0])
    ensures SourceText(Escaped(s) + rest) <==> SourceText(s) && SourceText(rest)
    decreases |s|
  {
    if s == [] {
      assert Escaped(s) + rest == rest;
    } else {
      var n := StepSize(s);
      EscapedIsSourceText(s[n..], rest);
      if IsAscii(s[0]) {
        Reassociate(EscapeByte(s[0]), Escaped(s[1..]), rest);
        LowStep(s, Escaped(s[1..]) + rest);
      } else {
        EscapingKeepsEncodings(s, rest);
        EscapedStep(s, rest);
        HighFront(s, Escaped(s) + rest, Escaped(s[n..]) + rest);
      }
    }
  }

  lemma LowStep(s: bytes, later: bytes)
    requires |s| > 0 && IsAscii(s[0])
    ensures SourceText(s) <==> s[0] != NUL && SourceText(s[1..])
    ensures SourceText(EscapeByte(s[0]) + later) <==> s[0] != NUL && SourceText(later)
  {
    if s[0] != NUL { AsciiFront(EscapeByte(s[0]), later); }
  }

  lemma QuotedParts(s: bytes, rest: bytes)
    ensures Quoted(s) + rest == [QUOTE] + (Escaped(s) + ([QUOTE] + rest))
  {
  }

  lemma QuoteIsSourceText(rest: bytes)
    ensures SourceText([QUOTE] + rest) <==> SourceText(rest)
  {
    AsciiFront([QUOTE], rest);
  }

  lemma {:induction false} QuotedIsSourceText(s: bytes, rest: bytes)
    ensures SourceText(Quoted(s) + rest) <==> SourceText(s) && SourceText(rest)
  {
    var end := [QUOTE] + rest;
    var text := Escaped(s) + end;
    QuoteIsSourceText(rest);
    EscapedIsSourceText(s, end);
    QuoteIsSourceText(text);
    QuotedParts(s, rest);
  }

  /** The two texts of a message as compilers judge them. */
  predicate Compilable(m: Message) {
    SourceText(m.key) && SourceText(m.defaultValue)
  }

  lemma EntryIsSourceText(m: Message, rest: bytes)
    ensures SourceText(Render(m, rest)) <==> Compilable(m) && SourceText(rest)
  {
    AsciiFront([COMMA], rest);
    QuotedIsSourceText(m.defaultValue, [COMMA] + rest);
    AsciiFront(BETWEEN, Quoted(m.defaultValue) + ([COMMA] + rest));
    QuotedIsSourceText(m.key, BETWEEN + (Quoted(m.defaultValue) + ([COMMA] + rest)));
    AsciiFront(OPENING, Quoted(m.key) + (BETWEEN + (Quoted(m.defaultValue) + ([COMMA] + rest))));
  }

  /** Compilers accept the text of the generated map exactly if they would accept that of every message. */
  lemma {:induction false} FileIsSourceTextExactly(entries: seq<Message>)
    ensures SourceText(RenderAll(entries)) <==> forall m :: m in entries ==> Compilable(m)
  {
    if entries == [] {
      AsciiFront(END, []);
      assert END + [] == END;
    } else {
      EntryIsSourceText(entries[0], RenderAll(entries[1..]));
      FileIsSourceTextExactly(entries[1..]);
      assert forall m :: m in entries <==> m == entries[0] || m in entries[1..];
    }
  }

  /** No message changes its meaning unnoticed: a generated map compilers accept reads back as exactly its messages. */
  lemma AcceptedFileMeansItsMessages(messages: seq<Message>, output: Output)
    requires IsOutput(messages, output) && output.Generated? && SourceText(RenderAll(output.entries))
    ensures ReadAll(RenderAll(output.entries)) == Some(output.entries)
  {
    FileIsSourceTextExactly(output.entries);
    forall m | m in output.entries ensures WellFormed(m) {
      SourceTextIsUtf8(m.key);
      SourceTextIsUtf8(m.defaultValue);
    }
    FileIsRead(output.entries);
    RepairChangesNothing(output.entries);
  }

  /**
   An expression built by + and parentheses from literals is written as a literal with the same value exactly when that
   value is well-formed UTF-8, which it is whenever no literal names a byte from 0x80 on by its number.
   */
  lemma ExpressionsKeepTheirMeaning(e: Expr)
    requires Leaves(e).Some? && AllUnquote(Leaves(e).value)
    ensures var value := Concatenated(Leaves(e).value);
            && ExtractStringValue(e).Some?
            && (Unquote(Quoted(ExtractStringValue(e).value)) == Some(value) <==> ValidUtf8(value))
            && ((forall i :: 0 <= i < |Leaves(e).value| ==> PlainLeaf(Leaves(e).value[i])) ==> ValidUtf8(value))
  {
    ValueIsTheLeaves(e);
    QuotedMeansTheSame(ExtractStringValue(e).value);
    if forall i :: 0 <= i < |Leaves(e).value| ==> PlainLeaf(Leaves(e).value[i]) {
      PlainLeavesAreValid(Leaves(e).value);
    }
  }

  lemma HighByteEscape(s: bytes)
    requires s == [0x78, 0x66, 0x66, QUOTE]
    ensures Escape(s) == Some(Unquoted([0xFF], [QUOTE]))
  {
    var digits := s[1..3];
    assert digits == [0x66, 0x66] && digits[..1] == [0x66] && digits[..1][..0] == [];
    assert Hex(digits[..1]) == Some(15);
    assert Hex(digits) == Some(255);
    assert s[3..] == [QUOTE];
  }

  /** Without the condition it fails: a byte named by its number does not come back, and no compiler accepts it. */
  lemma NamedByteIsLost(e: Expr)
    requires e == Literal(true, [QUOTE, BACKSLASH, 0x78, 0x66, 0x66, QUOTE])
    ensures ExtractStringValue(e) == Some([0xFF])
    ensures Unquote(Quoted([0xFF])) != Some([0xFF]) && !SourceText(Quoted([0xFF]))
  {
    var s: bytes := [BACKSLASH, 0x78, 0x66, 0x66, QUOTE];
    assert e.text[1..] == s && s[1..] == [0x78, 0x66, 0x66, QUOTE];
    HighByteEscape(s[1..]);
    assert UnquoteRest([QUOTE]) == Some(Unquoted([], []));
    RestSteps(s, Unquoted([0xFF], [QUOTE]), Unquoted([], []));
    assert [0xFF] + [] == [0xFF as byte];
    QuotedMeansTheSame([0xFF]);
    QuotedIsSourceText([0xFF], []);
    assert Quoted([0xFF]) + [] == Quoted([0xFF]);
  }
}
