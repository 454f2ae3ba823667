/** The text helpers the services take from Go's strings package. */
module GoText {
  /** White space as unicode.IsSpace counts it. */
  predicate IsSpace(c: char) {
    c == ' ' || '\t' <= c <= '\r' || c == '\U{85}' || c == '\U{A0}' || c == '\U{1680}' || '\U{2000}' <= c <= '\U{200A}'
    || c == '\U{2028}' || c == '\U{2029}' || c == '\U{202F}' || c == '\U{205F}' || c == '\U{3000}'
  }

  /** strings.TrimSpace. */
  function TrimSpace(s: string): (r: string)
    ensures r == "" <==> forall i :: 0 <= i < |s| ==> IsSpace(s[i])
    ensures r != "" ==> !IsSpace(r[0]) && !IsSpace(r[|r| - 1])
    decreases |s|
  {
    if s == "" then s
    else if IsSpace(s[0]) then TrimSpace(s[1..])
    else if IsSpace(s[|s| - 1]) then TrimSpace(s[..|s| - 1])
    else s
  }

  /** The code points of Unicode's White_Space property. */
  lemma SpacesByCodePoint(c: char)
    ensures IsSpace(c) <==>
            c as int in {0x09, 0x0A, 0x0B, 0x0C, 0x0D, 0x20, 0x85, 0xA0, 0x1680, 0x2000, 0x2001, 0x2002, 0x2003, 0x2004,
                         0x2005, 0x2006, 0x2007, 0x2008, 0x2009, 0x200A, 0x2028, 0x2029, 0x202F, 0x205F, 0x3000}
  {
  }

  predicate AllSpaces(s: string) {
    forall i :: 0 <= i < |s| ==> IsSpace(s[i])
  }

  predicate Trims(s: string, front: string, core: string, back: string) {
    AllSpaces(front) && AllSpaces(back) && s == front + (core + back)
  }

  /** What is trimmed is white space at the ends. */
  lemma {:induction false} TrimmedEnds(s: string) returns (front: string, back: string)
    ensures Trims(s, front, TrimSpace(s), back)
    decreases |s|
  {
    front, back := "", "";
    if s != "" && IsSpace(s[0]) {
      front, back := TrimmedEnds(s[1..]);
      var rest := TrimSpace(s) + back;
      assert s == [s[0]] + s[1..];
      assert [s[0]] + (front + rest) == ([s[0]] + front) + rest;
      front := [s[0]] + front;
    } else if s != "" && IsSpace(s[|s| - 1]) {
      var last := [s[|s| - 1]];
      front, back := TrimmedEnds(s[..|s| - 1]);
      var core := TrimSpace(s);
      assert s == s[..|s| - 1] + last;
      Reassociated(front, core, back, last);
      back := back + last;
    }
  }

  lemma Reassociated(a: string, b: string, c: string, d: string)
    ensures (a + (b + c)) + d == a + (b + (c + d))
  {
  }
}
