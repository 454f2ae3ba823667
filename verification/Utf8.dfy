/**
 UTF-8 as Go's unicode/utf8 package decodes and encodes it: strings are bytes, and a byte that begins no well-formed
 encoding decodes alone to the replacement character.
 */
module Utf8 {
  type byte = b: int | 0 <= b < 256

  type bytes = seq<byte>

  /** The replacement character. */
  const RUNE_ERROR := 0xFFFD

  /** The encoding of the replacement character. */
  const ERROR_BYTES: bytes := [0xEF, 0xBF, 0xBD]

  predicate IsAscii(b: byte) {
    b < 0x80
  }

  /** How many bytes an encoding beginning with `b` has, 0 when none does. */
  function Size(b: byte): (n: nat)
    ensures n <= 4
  {
    if b < 0x80 then 1
    else if 0xC2 <= b < 0xE0 then 2
    else if 0xE0 <= b < 0xF0 then 3
    else if 0xF0 <= b < 0xF5 then 4
    else 0
  }

  predicate Continues(b: byte) {
    0x80 <= b < 0xC0
  }

  /** The second byte rules out overlong forms, surrogates and values past U+10FFFF. */
  predicate Second(first: byte, b: byte) {
    (if first == 0xE0 then 0xA0 else if first == 0xF0 then 0x90 else 0x80)
    <= b < (if first == 0xED then 0xA0 else if first == 0xF4 then 0x90 else 0xC0)
  }

  predicate StartsWell(s: bytes) {
    && |s| > 0
    && 1 <= Size(s[0]) <= |s|
    && (Size(s[0]) >= 2 ==> Second(s[0], s[1]))
    && (Size(s[0]) >= 3 ==> Continues(s[2]))
    && (Size(s[0]) == 4 ==> Continues(s[3]))
  }

  /** The bits a byte carries beyond its marker. */
  function Bits(b: byte, marker: int): int {
    b as int - marker
  }

  /** The character at the front and the bytes it takes. */
  function DecodeRune(s: bytes): (r: (nat, nat))
    requires |s| > 0
    ensures 1 <= r.1 <= |s|
  {
    if !StartsWell(s) then (RUNE_ERROR, 1)
    else match Size(s[0])
      case 1 => (s[0], 1)
      case 2 => (Bits(s[0], 0xC0) * 64 + Bits(s[1], 0x80), 2)
      case 3 => (Bits(s[0], 0xE0) * 4096 + Bits(s[1], 0x80) * 64 + Bits(s[2], 0x80), 3)
      case _ => (Bits(s[0], 0xF0) * 262144 + Bits(s[1], 0x80) * 4096 + Bits(s[2], 0x80) * 64 + Bits(s[3], 0x80), 4)
  }

  predicate ValidRune(r: int) {
    0 <= r < 0xD800 || 0xE000 <= r <= 0x10FFFF
  }

  function EncodeRune(r: nat): bytes {
    if r < 0x80 then [r]
    else if r < 0x800 then [0xC0 + r / 64, 0x80 + r % 64]
    else if !ValidRune(r) then ERROR_BYTES
    else if r < 0x10000 then [0xE0 + r / 4096, 0x80 + r / 64 % 64, 0x80 + r % 64]
    else [0xF0 + r / 262144, 0x80 + r / 4096 % 64, 0x80 + r / 64 % 64, 0x80 + r % 64]
  }

  predicate ValidUtf8(s: bytes)
    decreases |s|
  {
    s == [] || (StartsWell(s) && ValidUtf8(s[Size(s[0])..]))
  }

  /** Every byte that begins no encoding replaced by the replacement character. */
  function Sanitize(s: bytes): bytes
    decreases |s|
  {
    if s == [] then []
    else if StartsWell(s) then s[..Size(s[0])] + Sanitize(s[Size(s[0])..])
    else ERROR_BYTES + Sanitize(s[1..])
  }

  lemma DecodedIsEncoded(s: bytes)
    requires StartsWell(s)
    ensures EncodeRune(DecodeRune(s).0) == s[..Size(s[0])]
    ensures ValidRune(DecodeRune(s).0)
  {
    match Size(s[0])
    case 1 =>
    case 2 => TwoBytes(s);
    case 3 => ThreeBytes(s);
    case _ => FourBytes(s);
  }

  lemma TwoBytes(s: bytes)
    requires StartsWell(s) && Size(s[0]) == 2
    ensures EncodeRune(DecodeRune(s).0) == s[..2] && ValidRune(DecodeRune(s).0)
  {
    var a, b := Bits(s[0], 0xC0), Bits(s[1], 0x80);
    assert (a * 64 + b) / 64 == a && (a * 64 + b) % 64 == b;
  }

  lemma ThreeBytes(s: bytes)
    requires StartsWell(s) && Size(s[0]) == 3
    ensures EncodeRune(DecodeRune(s).0) == s[..3] && ValidRune(DecodeRune(s).0)
  {
    var a, b, c := Bits(s[0], 0xE0), Bits(s[1], 0x80), Bits(s[2], 0x80);
    var r := a * 4096 + b * 64 + c;
    assert r / 64 == a * 64 + b && r % 64 == c;
    assert r / 4096 == a && (a * 64 + b) % 64 == b;
    assert 0x800 <= r < 0x10000 && ValidRune(r);
  }

  lemma FourBytes(s: bytes)
    requires StartsWell(s) && Size(s[0]) == 4
    ensures EncodeRune(DecodeRune(s).0) == s[..4] && ValidRune(DecodeRune(s).0)
  {
    var a, b, c, d := Bits(s[0], 0xF0), Bits(s[1], 0x80), Bits(s[2], 0x80), Bits(s[3], 0x80);
    var r := a * 262144 + b * 4096 + c * 64 + d;
    assert r / 64 == a * 4096 + b * 64 + c && r % 64 == d;
    assert r / 4096 == a * 64 + b && (a * 4096 + b * 64 + c) % 64 == c;
    assert r / 262144 == a && (a * 64 + b) % 64 == b;
    assert 0x10000 <= r <= 0x10FFFF;
  }

  /** Every encoded character is well formed, whatever follows it. */
  lemma EncodedStartsWell(r: nat, rest: bytes)
    ensures var s := EncodeRune(r) + rest; StartsWell(s) && Size(s[0]) == |EncodeRune(r)|
  {
    if ValidRune(r) && r >= 0x10000 {
      assert r / 4096 % 64 == r / 4096 - r / 262144 * 64;
      assert r / 262144 <= 4;
    } else if ValidRune(r) && r >= 0x800 {
      assert r / 64 % 64 == r / 64 - r / 4096 * 64;
    }
  }

  lemma {:induction false} SanitizedLength(s: bytes)
    ensures |Sanitize(s)| >= |s|
    ensures |Sanitize(s)| == |s| <==> ValidUtf8(s)
    decreases |s|
  {
    if s != [] {
      if StartsWell(s) { SanitizedLength(s[Size(s[0])..]); } else { SanitizedLength(s[1..]); }
    }
  }

  /** Sanitizing changes nothing exactly when there is nothing to repair. */
  lemma {:induction false} SanitizedIsSame(s: bytes)
    ensures Sanitize(s) == s <==> ValidUtf8(s)
    decreases |s|
  {
    SanitizedLength(s);
    if s != [] && StartsWell(s) {
      var n := Size(s[0]);
      SanitizedIsSame(s[n..]);
      assert s == s[..n] + s[n..];
    }
  }

  lemma {:induction false} ValidAppends(a: bytes, b: bytes)
    requires ValidUtf8(a) && ValidUtf8(b)
    ensures ValidUtf8(a + b)
    decreases |a|
  {
    if a == [] {
      assert a + b == b;
    } else {
      var n := Size(a[0]);
      ValidAppends(a[n..], b);
      assert (a + b)[n..] == a[n..] + b;
    }
  }

  lemma EncodedIsValid(r: nat)
    ensures ValidUtf8(EncodeRune(r))
  {
    EncodedStartsWell(r, []);
    assert EncodeRune(r) + [] == EncodeRune(r);
  }

  /** Repairing is enough: what comes out is well formed. */
  lemma {:induction false} SanitizedIsValid(s: bytes)
    ensures ValidUtf8(Sanitize(s))
    decreases |s|
  {
    if s != [] {
      if StartsWell(s) {
        var n := Size(s[0]);
        SanitizedIsValid(s[n..]);
        assert s[..n][n..] == [];
        ValidAppends(s[..n], Sanitize(s[n..]));
      } else {
        SanitizedIsValid(s[1..]);
        assert ERROR_BYTES[3..] == [];
        ValidAppends(ERROR_BYTES, Sanitize(s[1..]));
      }
    }
  }

  /** A well-formed string can be cut before any byte below 0x80. */
  lemma {:induction false} ValidSplits(s: bytes, i: nat)
    requires ValidUtf8(s) && i <= |s| && (i < |s| ==> IsAscii(s[i]))
    ensures ValidUtf8(s[..i]) && ValidUtf8(s[i..])
    decreases |s|
  {
    if i > 0 {
      var n := Size(s[0]);
      assert n <= i;
      ValidSplits(s[n..], i - n);
      assert s[n..][..i - n] == s[n..i] == s[..i][n..];
      assert s[n..][i - n..] == s[i..];
    } else {
      assert s[0..] == s;
    }
  }

  predicate In(b: byte, low: int, high: int) {
    low <= b <= high
  }

  /** The rows of the table of well-formed byte sequences in the Unicode standard. */
  predicate InTable(s: bytes) {
    || (|s| >= 1 && In(s[0], 0x00, 0x7F))
    || (|s| >= 2 && In(s[0], 0xC2, 0xDF) && In(s[1], 0x80, 0xBF))
    || (|s| >= 3 && s[0] == 0xE0 && In(s[1], 0xA0, 0xBF) && In(s[2], 0x80, 0xBF))
    || (|s| >= 3 && In(s[0], 0xE1, 0xEC) && In(s[1], 0x80, 0xBF) && In(s[2], 0x80, 0xBF))
    || (|s| >= 3 && s[0] == 0xED && In(s[1], 0x80, 0x9F) && In(s[2], 0x80, 0xBF))
    || (|s| >= 3 && In(s[0], 0xEE, 0xEF) && In(s[1], 0x80, 0xBF) && In(s[2], 0x80, 0xBF))
    || (|s| >= 4 && s[0] == 0xF0 && In(s[1], 0x90, 0xBF) && In(s[2], 0x80, 0xBF) && In(s[3], 0x80, 0xBF))
    || (|s| >= 4 && In(s[0], 0xF1, 0xF3) && In(s[1], 0x80, 0xBF) && In(s[2], 0x80, 0xBF) && In(s[3], 0x80, 0xBF))
    || (|s| >= 4 && s[0] == 0xF4 && In(s[1], 0x80, 0x8F) && In(s[2], 0x80, 0xBF) && In(s[3], 0x80, 0xBF))
  }

  lemma WellFormedByTable(s: bytes)
    ensures StartsWell(s) <==> InTable(s)
    ensures StartsWell(s) ==>
              Size(s[0]) == (if s[0] < 0x80 then 1 else if s[0] < 0xE0 then 2 else if s[0] < 0xF0 then 3 else 4)
  {
  }

  /** Every character but a surrogate comes back from its encoding, whatever follows it. */
  lemma EncodedIsDecoded(r: nat, rest: bytes)
    requires r <= 0x10FFFF && !(0xD800 <= r <= 0xDFFF)
    ensures DecodeRune(EncodeRune(r) + rest) == (r, |EncodeRune(r)|)
  {
    EncodedStartsWell(r, rest);
    assert r == r / 64 * 64 + r % 64;
    assert r / 64 == r / 4096 * 64 + r / 64 % 64;
    assert r / 4096 == r / 262144 * 64 + r / 4096 % 64;
  }
}
