/** Go string literals, read as strconv.Unquote reads them: section "String literals" of the Go specification. */
module GoLiterals {
  import opened Wrappers
  import opened Utf8

  const QUOTE: byte := 0x22
  const APOSTROPHE: byte := 0x27
  const BACKSLASH: byte := 0x5C
  const BACKQUOTE: byte := 0x60
  const NEWLINE: byte := 0x0A
  const TAB: byte := 0x09
  const RETURN: byte := 0x0D

  /** The byte a one-letter escape stands for; an escaped apostrophe belongs to rune literals only. */
  function SimpleEscape(c: byte): Option<byte> {
    match c
    case 0x61 => Some(0x07)
    case 0x62 => Some(0x08)
    case 0x66 => Some(0x0C)
    case 0x6E => Some(NEWLINE)
    case 0x72 => Some(RETURN)
    case 0x74 => Some(TAB)
    case 0x76 => Some(0x0B)
    case 0x5C => Some(BACKSLASH)
    case 0x22 => Some(QUOTE)
    case _ => None
  }

  function HexDigit(c: byte): Option<nat> {
    if 0x30 <= c <= 0x39 then Some((c - 0x30) as nat)
    else if 0x61 <= c <= 0x66 then Some((c - 0x57) as nat)
    else if 0x41 <= c <= 0x46 then Some((c - 0x37) as nat)
    else None
  }

  /** A number in base 16. */
  function Hex(s: bytes): Option<nat>
    decreases |s|
  {
    if s == [] then Some(0)
    else match Hex(s[..|s| - 1])
      case None => None
      case Some(high) =>
        match HexDigit(s[|s| - 1])
        case None => None
        case Some(digit) => Some(high * 16 + digit)
  }

  predicate IsOctal(c: byte) {
    0x30 <= c <= 0x37
  }

  /** The three digits of an octal escape; past 255 they are no escape. */
  function Octal(s: bytes): Option<byte> {
    if |s| == 3 && IsOctal(s[0]) && IsOctal(s[1]) && IsOctal(s[2]) then
      var v := Bits(s[0], 0x30) * 64 + Bits(s[1], 0x30) * 8 + Bits(s[2], 0x30);
      if v <= 255 then Some(v) else None
    else None
  }

  /** A character of a literal's value and the text after it. */
  datatype Unquoted = Unquoted(value: bytes, tail: bytes)

  /** A byte given by its number, which need not be UTF-8. */
  function ByteEscape(s: bytes): Option<Unquoted>
    requires |s| > 0
  {
    if s[0] == 0x78 then
      if |s| >= 3 && Hex(s[1..3]).Some? && Hex(s[1..3]).value <= 255
      then Some(Unquoted([Hex(s[1..3]).value], s[3..])) else None
    else
      if |s| >= 3 && Octal(s[..3]).Some? then Some(Unquoted([Octal(s[..3]).value], s[3..])) else None
  }

  /** A character given by its code point. */
  function RuneEscape(s: bytes, digits: nat): Option<Unquoted>
    requires |s| > 0
  {
    if |s| > digits && Hex(s[1..digits + 1]).Some? && ValidRune(Hex(s[1..digits + 1]).value)
    then Some(Unquoted(EncodeRune(Hex(s[1..digits + 1]).value), s[digits + 1..])) else None
  }

  /** What follows a backslash. */
  function Escape(s: bytes): Option<Unquoted>
    requires |s| > 0
  {
    if SimpleEscape(s[0]).Some? then Some(Unquoted([SimpleEscape(s[0]).value], s[1..]))
    else if s[0] == 0x78 || IsOctal(s[0]) then ByteEscape(s)
    else if s[0] == 0x75 then RuneEscape(s, 4)
    else if s[0] == 0x55 then RuneEscape(s, 8)
    else None
  }

  /** One character of an interpreted literal: none at its end, at a raw newline and at a wrong escape. */
  function UnquoteChar(s: bytes): (u: Option<Unquoted>)
    requires |s| > 0
    ensures u.Some? ==> |u.value.tail| < |s|
  {
    if s[0] == QUOTE || s[0] == NEWLINE then None
    else if !IsAscii(s[0]) then
      var (r, size) := DecodeRune(s);
      Some(Unquoted(EncodeRune(r), s[size..]))
    else if s[0] != BACKSLASH then Some(Unquoted([s[0]], s[1..]))
    else if |s| == 1 then None
    else Escape(s[1..])
  }

  /** The value of an interpreted literal after its opening quote, and what follows its closing quote. */
  function UnquoteRest(s: bytes): Option<Unquoted>
    decreases |s|
  {
    if s == [] then None
    else if s[0] == QUOTE then Some(Unquoted([], s[1..]))
    else match UnquoteChar(s)
      case None => None
      case Some(c) =>
        match UnquoteRest(c.tail)
        case None => None
        case Some(u) => Some(Unquoted(c.value + u.value, u.tail))
  }

  /** Carriage returns have no place in a raw literal's value. */
  function WithoutReturns(s: bytes): bytes {
    if s == [] then []
    else if s[0] == RETURN then WithoutReturns(s[1..])
    else [s[0]] + WithoutReturns(s[1..])
  }

  /** The value of a whole string literal. */
  function Unquote(text: bytes): Option<bytes> {
    if |text| < 2 then None
    else if text[0] == BACKQUOTE then
      var content := text[1..|text| - 1];
      if text[|text| - 1] == BACKQUOTE && BACKQUOTE !in content then Some(WithoutReturns(content)) else None
    else if text[0] == QUOTE then
      match UnquoteRest(text[1..])
      case None => None
      case Some(u) => if u.tail == [] then Some(u.value) else None
    else None
  }

  // When a literal's value is well-formed UTF-8

  /** Whether an interpreted literal names a byte from 0x80 on by its number. */
  predicate NamesHighByte(s: bytes)
    decreases |s|
  {
    s != [] && s[0] != QUOTE && UnquoteChar(s).Some? &&
    ((s[0] == BACKSLASH && (s[1] == 0x78 || IsOctal(s[1])) && !IsAscii(UnquoteChar(s).value.value[0]))
     || NamesHighByte(UnquoteChar(s).value.tail))
  }

  lemma OneByteIsValid(b: byte)
    requires IsAscii(b)
    ensures ValidUtf8([b])
  {
    assert [b][1..] == [];
  }

  lemma CharIsValid(s: bytes)
    requires |s| > 0 && UnquoteChar(s).Some?
    requires s[0] == BACKSLASH && (s[1] == 0x78 || IsOctal(s[1])) ==> IsAscii(UnquoteChar(s).value.value[0])
    ensures ValidUtf8(UnquoteChar(s).value.value)
  {
    var value := UnquoteChar(s).value.value;
    if |value| == 1 && IsAscii(value[0]) {
      OneByteIsValid(value[0]);
      assert value == [value[0]];
    } else if !IsAscii(s[0]) {
      EncodedIsValid(DecodeRune(s).0);
    } else if s[1] == 0x75 {
      EncodedIsValid(Hex(s[1..][1..5]).value);
    } else if s[1] == 0x55 {
      EncodedIsValid(Hex(s[1..][1..9]).value);
    }
  }

  lemma {:induction false} RestIsValid(s: bytes)
    requires UnquoteRest(s).Some? && !NamesHighByte(s)
    ensures ValidUtf8(UnquoteRest(s).value.value)
    decreases |s|
  {
    if s[0] != QUOTE {
      CharIsValid(s);
      var c := UnquoteChar(s).value;
      RestIsValid(c.tail);
      ValidAppends(c.value, UnquoteRest(c.tail).value.value);
    }
  }

  lemma {:induction false} ReturnsAreNotNeeded(s: bytes)
    requires ValidUtf8(s)
    ensures ValidUtf8(WithoutReturns(s))
    decreases |s|
  {
    if s != [] {
      var n := Size(s[0]);
      ReturnsAreNotNeeded(s[n..]);
      if n == 1 {
        OneByteIsValid(s[0]);
        ValidAppends([s[0]], WithoutReturns(s[1..]));
      } else {
        KeepsNonReturns(s[..n], s[n..]);
        assert s == s[..n] + s[n..];
        assert s[..n][n..] == [];
        ValidAppends(s[..n], WithoutReturns(s[n..]));
      }
    }
  }

  lemma {:induction false} KeepsNonReturns(a: bytes, b: bytes)
    requires forall i :: 0 <= i < |a| ==> a[i] != RETURN
    ensures WithoutReturns(a + b) == a + WithoutReturns(b)
  {
    if a == [] {
      assert a + b == b;
    } else {
      KeepsNonReturns(a[1..], b);
      assert (a + b)[1..] == a[1..] + b;
    }
  }

  /** A literal in well-formed source has a well-formed value unless it names a byte from 0x80 on by its number. */
  lemma LiteralIsValid(text: bytes)
    requires Unquote(text).Some? && ValidUtf8(text)
    requires text[0] == QUOTE ==> !NamesHighByte(text[1..])
    ensures ValidUtf8(Unquote(text).value)
  {
    if text[0] == QUOTE {
      RestIsValid(text[1..]);
    } else {
      ValidSplits(text, |text| - 1);
      ValidSplits(text[..|text| - 1], 0);
      assert text[..|text| - 1][1..] == text[1..|text| - 1];
      assert Size(text[0]) == 1;
      ReturnsAreNotNeeded(text[1..|text| - 1]);
    }
  }

  // The escapes, one by one

  function Ascii(c: char): byte
    requires c as int < 0x80
  {
    c as int
  }

  const LOWER_DIGITS := "0123456789abcdef"
  const UPPER_DIGITS := "0123456789ABCDEF"

  function DigitByte(n: nat, upper: bool): byte
    requires n < 16
  {
    if upper then Ascii(UPPER_DIGITS[n]) else Ascii(LOWER_DIGITS[n])
  }

  lemma DigitIsRead(n: nat, upper: bool)
    requires n < 16
    ensures HexDigit(DigitByte(n, upper)) == Some(n)
  {
  }

  lemma OnlyDigitsAreRead(b: byte)
    requires HexDigit(b).Some?
    ensures HexDigit(b).value < 16
    ensures b == DigitByte(HexDigit(b).value, true) || b == DigitByte(HexDigit(b).value, false)
  {
  }

  function Power16(k: nat): nat {
    if k == 0 then 1 else 16 * Power16(k - 1)
  }

  /** A number in so many hexadecimal digits. */
  function HexDigits(n: nat, k: nat, upper: bool): (s: bytes)
    ensures |s| == k
    decreases k
  {
    if k == 0 then [] else HexDigits(n / 16, k - 1, upper) + [DigitByte(n % 16, upper)]
  }

  lemma {:induction false} HexDigitsAreRead(n: nat, k: nat, upper: bool)
    requires n < Power16(k)
    ensures Hex(HexDigits(n, k, upper)) == Some(n)
    decreases k
  {
    if k > 0 {
      var s := HexDigits(n, k, upper);
      assert s[..k - 1] == HexDigits(n / 16, k - 1, upper) && s[k - 1] == DigitByte(n % 16, upper);
      HexDigitsAreRead(n / 16, k - 1, upper);
      DigitIsRead(n % 16, upper);
    }
  }

  lemma EscapeIsRead(s: bytes, value: bytes)
    requires |s| > 0 && Escape(s + [QUOTE]) == Some(Unquoted(value, [QUOTE]))
    ensures Unquote([QUOTE, BACKSLASH] + s + [QUOTE]) == Some(value)
  {
    var text := [QUOTE, BACKSLASH] + s + [QUOTE];
    assert text[1..][1..] == s + [QUOTE];
    assert [QUOTE][1..] == [] && UnquoteRest([QUOTE]) == Some(Unquoted([], []));
    assert value + [] == value;
  }

  /** Every byte can be named by two hexadecimal digits of either case. */
  lemma HexEscapeIsRead(b: byte, upper: bool)
    ensures Unquote([QUOTE, BACKSLASH] + ([Ascii('x')] + HexDigits(b, 2, upper)) + [QUOTE]) == Some([b])
  {
    var digits := HexDigits(b, 2, upper);
    var s := [Ascii('x')] + digits;
    assert Power16(2) == 256;
    HexDigitsAreRead(b, 2, upper);
    assert (s + [QUOTE])[1..3] == digits && (s + [QUOTE])[3..] == [QUOTE];
    EscapeIsRead(s, [b]);
  }

  lemma PowersOf16()
    ensures Power16(4) == 0x1_0000 && Power16(8) == 0x1_0000_0000
  {
    assert Power16(2) == 0x100;
    assert Power16(6) == 0x100 * Power16(4);
  }

  lemma EscapeIsRefused(s: bytes)
    requires |s| > 0 && Escape(s + [QUOTE]) == None
    ensures Unquote([QUOTE, BACKSLASH] + s + [QUOTE]) == None
  {
    var text := [QUOTE, BACKSLASH] + s + [QUOTE];
    assert text[1..][1..] == s + [QUOTE];
  }

  lemma DigitsOfRune(r: nat, k: nat, upper: bool, letter: byte)
    requires r < Power16(k)
    ensures RuneEscape([letter] + HexDigits(r, k, upper) + [QUOTE], k) ==
            if ValidRune(r) then Some(Unquoted(EncodeRune(r), [QUOTE])) else None
  {
    var digits := HexDigits(r, k, upper);
    var s := [letter] + digits + [QUOTE];
    HexDigitsAreRead(r, k, upper);
    assert s[1..k + 1] == digits && s[k + 1..] == [QUOTE];
  }

  /** Every character can be named by four or by eight digits if its number has no more; a surrogate is none. */
  lemma RuneEscapeIsRead(r: nat, wide: bool, upper: bool)
    requires r < if wide then 0x1_0000_0000 else 0x1_0000
    ensures var digits := HexDigits(r, if wide then 8 else 4, upper);
            Unquote([QUOTE, BACKSLASH] + ([Ascii(if wide then 'U' else 'u')] + digits) + [QUOTE]) ==
            if r <= 0x10FFFF && !(0xD800 <= r <= 0xDFFF) then Some(EncodeRune(r)) else None
  {
    var letter := Ascii(if wide then 'U' else 'u');
    var k := if wide then 8 else 4;
    PowersOf16();
    DigitsOfRune(r, k, upper, letter);
    if ValidRune(r) {
      EscapeIsRead([letter] + HexDigits(r, k, upper), EncodeRune(r));
    } else {
      EscapeIsRefused([letter] + HexDigits(r, k, upper));
    }
  }

  /** And by three octal digits. */
  lemma OctalEscapeIsRead(b: byte)
    ensures Unquote([QUOTE, BACKSLASH, 0x30 + b / 64, 0x30 + b / 8 % 8, 0x30 + b % 8, QUOTE]) == Some([b])
  {
    var s := [0x30 + b / 64, 0x30 + b / 8 % 8, 0x30 + b % 8];
    assert (s + [QUOTE])[..3] == s && (s + [QUOTE])[3..] == [QUOTE];
    assert b as int == b / 64 * 64 + b / 8 % 8 * 8 + b % 8;
    EscapeIsRead(s, [b]);
    assert [QUOTE, BACKSLASH] + s + [QUOTE] ==
           [QUOTE, BACKSLASH, 0x30 + b / 64, 0x30 + b / 8 % 8, 0x30 + b % 8, QUOTE];
  }

  /** The one-letter escapes and what they stand for. */
  lemma LetterEscapeIsRead(i: nat)
    requires i < 9
    ensures SimpleEscape(Ascii("abfnrtv\\\""[i])) == Some([7, 8, 12, 10, 13, 9, 11, 92, 34][i])
  {
  }

  /** No other letter is one. */
  lemma OnlyLettersEscape(c: byte) returns (i: nat)
    requires SimpleEscape(c).Some?
    ensures i < 9 && c == Ascii("abfnrtv\\\""[i])
  {
    i := match c
      case 0x61 => 0
      case 0x62 => 1
      case 0x66 => 2
      case 0x6E => 3
      case 0x72 => 4
      case 0x74 => 5
      case 0x76 => 6
      case 0x5C => 7
      case _ => 8;
  }

  /** A raw literal means its content, without carriage returns, and ends at the first backquote. */
  lemma RawLiteralIsRead(content: bytes)
    ensures Unquote([BACKQUOTE] + content + [BACKQUOTE]) ==
            if BACKQUOTE in content then None else Some(WithoutReturns(content))
    ensures RETURN !in content ==> WithoutReturns(content) == content
    ensures RETURN !in WithoutReturns(content)
  {
    assert ([BACKQUOTE] + content + [BACKQUOTE])[1..|content| + 1] == content;
    if RETURN !in content {
      KeepsNonReturns(content, []);
      assert content + [] == content;
    }
    NoReturnsLeft(content);
  }

  lemma {:induction false} NoReturnsLeft(s: bytes)
    ensures RETURN !in WithoutReturns(s)
  {
    if s != [] { NoReturnsLeft(s[1..]); }
  }

  /** The characters that delimit literals and begin escapes. */
  lemma Delimiters()
    ensures QUOTE == Ascii('"') && BACKQUOTE == Ascii('`') && APOSTROPHE == Ascii('\'') && BACKSLASH == Ascii('\\')
    ensures NEWLINE == Ascii('\n') && TAB == Ascii('\t') && RETURN == Ascii('\r')
  {
  }

  /** What one character of a literal takes from the text. */
  lemma CharIsAFront(s: bytes)
    requires |s| > 0 && UnquoteChar(s).Some?
    ensures var n := |s| - |UnquoteChar(s).value.tail|;
            0 < n <= |s| && s[n..] == UnquoteChar(s).value.tail && NEWLINE !in s[..n]
  {
    var n := |s| - |UnquoteChar(s).value.tail|;
    if !IsAscii(s[0]) {
      assert forall i :: 0 <= i < n ==> s[..n][i] >= 0x80;
    } else if s[0] != BACKSLASH {
      assert s[..n] == [s[0]];
    } else {
      EscapeIsAFront(s[1..]);
      assert s[..n] == [BACKSLASH] + s[1..][..n - 1];
    }
  }

  lemma {:induction false} DigitsAreNoNewline(s: bytes)
    requires Hex(s).Some?
    ensures NEWLINE !in s
    decreases |s|
  {
    if s != [] {
      DigitsAreNoNewline(s[..|s| - 1]);
      assert s == s[..|s| - 1] + [s[|s| - 1]];
    }
  }

  lemma EscapeIsAFront(s: bytes)
    requires |s| > 0 && Escape(s).Some?
    ensures var n := |s| - |Escape(s).value.tail|;
            0 < n <= |s| && s[n..] == Escape(s).value.tail && NEWLINE !in s[..n]
  {
    var n := |s| - |Escape(s).value.tail|;
    if SimpleEscape(s[0]).Some? {
      assert s[..n] == [s[0]];
    } else if IsOctal(s[0]) {
      assert s[..n] == s[..3] && s[..3] == [s[0], s[1], s[2]];
    } else {
      DigitsAreNoNewline(s[1..n]);
      assert s[..n] == [s[0]] + s[1..n];
    }
  }

  /** No interpreted literal runs over the end of a line. */
  lemma {:induction false} LiteralsStayOnTheLine(s: bytes)
    requires UnquoteRest(s).Some?
    ensures var n := |s| - |UnquoteRest(s).value.tail|; 0 < n <= |s| && NEWLINE !in s[..n]
    decreases |s|
  {
    if s[0] == QUOTE {
      assert s[..1] == [QUOTE];
    } else {
      CharIsAFront(s);
      var c := UnquoteChar(s).value;
      LiteralsStayOnTheLine(c.tail);
      var k, n := |s| - |c.tail|, |s| - |UnquoteRest(s).value.tail|;
      assert s[..n] == s[..k] + c.tail[..n - k];
    }
  }
}
