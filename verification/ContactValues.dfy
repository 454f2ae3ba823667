/** Verifiable contacts and the form in which two values of one are compared. */
module ContactValues {
  import opened Wrappers
  import opened GoText

  datatype ContactKind = Email | Mobile

  /** A letter of the ASCII alphabet in lower case; every other character stays. */
  function LowerChar(c: char): char {
    if 'A' <= c <= 'Z' then c - 'A' + 'a' else c
  }

  function ToLower(s: string): (r: string)
    ensures |r| == |s| && forall i :: 0 <= i < |s| ==> r[i] == LowerChar(s[i])
  {
    seq(|s|, i requires 0 <= i < |s| => LowerChar(s[i]))
  }

  /** Where the domain begins: after the last @, or past the end when there is none. */
  function DomainStart(s: string): (i: nat)
    ensures i <= |s|
    ensures forall j :: i <= j < |s| ==> s[j] != '@'
    ensures i < |s| ==> i > 0 && s[i - 1] == '@'
    decreases |s|
  {
    if s == "" then 0
    else if s[|s| - 1] == '@' then |s|
    else
      var i := DomainStart(s[..|s| - 1]);
      if i == |s| - 1 && !(i > 0 && s[i - 1] == '@') then |s| else i
  }

  /** An email address is trimmed and its domain lowered; a mobile number is compared as it is. */
  function Canonical(kind: Option<ContactKind>, value: string): string {
    if kind != Some(Email) then value else
    var trimmed := TrimSpace(value);
    LowerFrom(trimmed, DomainStart(trimmed))
  }

  lemma {:induction false} DomainStartIsUnique(s: string, i: nat)
    requires 0 < i <= |s| && s[i - 1] == '@' && forall j :: i <= j < |s| ==> s[j] != '@'
    ensures DomainStart(s) == i
    decreases |s|
  {
    if s[|s| - 1] != '@' { DomainStartIsUnique(s[..|s| - 1], i); }
  }

  lemma TrimmedStays(s: string)
    requires s == "" || (!IsSpace(s[0]) && !IsSpace(s[|s| - 1]))
    ensures TrimSpace(s) == s
  {
  }

  function LowerFrom(s: string, i: nat): string
    requires i <= |s|
  {
    s[..i] + ToLower(s[i..])
  }

  lemma LowerKeepsEnds(s: string, i: nat)
    requires i <= |s| && (s == "" || (!IsSpace(s[0]) && !IsSpace(s[|s| - 1])))
    ensures var c := LowerFrom(s, i); c == "" || (!IsSpace(c[0]) && !IsSpace(c[|c| - 1]))
  {
  }

  lemma LowerKeepsDomain(s: string)
    ensures DomainStart(LowerFrom(s, DomainStart(s))) == DomainStart(s)
  {
    var i := DomainStart(s);
    var c := LowerFrom(s, i);
    if i > 0 && s[i - 1] == '@' {
      DomainStartIsUnique(c, i);
    } else {
      assert c == s;
    }
  }

  lemma LowerTwice(s: string, i: nat)
    requires i <= |s|
    ensures LowerFrom(LowerFrom(s, i), i) == LowerFrom(s, i)
  {
  }

  /** Comparing a canonical value again changes nothing. */
  lemma CanonicalIsIdempotent(kind: Option<ContactKind>, value: string)
    ensures Canonical(kind, Canonical(kind, value)) == Canonical(kind, value)
  {
    if kind == Some(Email) {
      var t := TrimSpace(value);
      var i := DomainStart(t);
      LowerKeepsEnds(t, i);
      TrimmedStays(LowerFrom(t, i));
      LowerKeepsDomain(t);
      LowerTwice(t, i);
    }
  }

  // Which addresses are the same

  /** The same letter of the ASCII alphabet in either case, or the same character. */
  predicate SameLetter(c: char, d: char) {
    c == d || ('A' <= c <= 'Z' && d as int == c as int + 32) || ('A' <= d <= 'Z' && c as int == d as int + 32)
  }

  predicate SameButCase(s: string, t: string) {
    |s| == |t| && forall i :: 0 <= i < |s| ==> SameLetter(s[i], t[i])
  }

  /** The local part with its @, and a domain. */
  predicate IsAddress(s: string, local: string, domain: string) {
    s == local + domain && local != "" && local[|local| - 1] == '@' && '@' !in domain
  }

  lemma LoweredAgree(s: string, t: string)
    ensures ToLower(s) == ToLower(t) <==> SameButCase(s, t)
  {
    if ToLower(s) == ToLower(t) {
      forall i | 0 <= i < |s| ensures SameLetter(s[i], t[i]) {
        assert ToLower(s)[i] == ToLower(t)[i];
      }
    }
  }

  lemma AddressIsLowered(s: string, local: string, domain: string)
    requires IsAddress(s, local, domain)
    ensures DomainStart(s) == |local| && LowerFrom(s, DomainStart(s)) == local + ToLower(domain)
  {
    assert forall j :: |local| <= j < |s| ==> s[j] == domain[j - |local|];
    DomainStartIsUnique(s, |local|);
    assert s[..|local|] == local && s[|local|..] == domain;
  }

  lemma AddressOrNot(s: string)
    ensures var i := DomainStart(s);
            IsAddress(s, s[..i], s[i..]) || ('@' !in s && LowerFrom(s, i) == s)
  {
    var i := DomainStart(s);
    assert s == s[..i] + s[i..];
    if i == |s| && (i == 0 || s[i - 1] != '@') { NoAddress(s); }
  }

  lemma {:induction false} NoAddress(s: string)
    requires DomainStart(s) == |s| && (s == "" || s[|s| - 1] != '@')
    ensures '@' !in s && LowerFrom(s, |s|) == s
  {
    if '@' in s {
      var j :| 0 <= j < |s| && s[j] == '@';
      LastAt(s, j);
    }
  }

  lemma {:induction false} LastAt(s: string, j: nat)
    requires j < |s| && s[j] == '@'
    ensures 0 < DomainStart(s) && s[DomainStart(s) - 1] == '@'
    decreases |s|
  {
    if s[|s| - 1] != '@' {
      LastAt(s[..|s| - 1], j);
      var i := DomainStart(s[..|s| - 1]);
      assert s[..|s| - 1][i - 1] == s[i - 1];
    }
  }

  /**
   Two email addresses are the same exactly if, trimmed, they are equal, or have the same local part and domains that
   differ in the case of letters only.
   */
  lemma SameEmailExactly(a: string, b: string)
    ensures Canonical(Some(Email), a) == Canonical(Some(Email), b) <==>
            || TrimSpace(a) == TrimSpace(b)
            || exists local, c, d ::
                 IsAddress(TrimSpace(a), local, c) && IsAddress(TrimSpace(b), local, d) && SameButCase(c, d)
  {
    var s, t := TrimSpace(a), TrimSpace(b);
    forall local, c, d | IsAddress(s, local, c) && IsAddress(t, local, d) && SameButCase(c, d)
      ensures Canonical(Some(Email), a) == Canonical(Some(Email), b)
    {
      AddressIsLowered(s, local, c);
      AddressIsLowered(t, local, d);
      LoweredAgree(c, d);
    }
    if Canonical(Some(Email), a) == Canonical(Some(Email), b) { SameLocalPart(s, t); }
  }

  lemma LoweredParts(s: string, t: string, i: nat)
    requires i <= |s| && i <= |t| && LowerFrom(s, i) == LowerFrom(t, i)
    ensures s[..i] == t[..i] && SameButCase(s[i..], t[i..])
  {
    var f := LowerFrom(s, i);
    assert f[..i] == s[..i] && f[..i] == t[..i];
    assert f[i..] == ToLower(s[i..]) && f[i..] == ToLower(t[i..]);
    LoweredAgree(s[i..], t[i..]);
  }

  /** Two texts cut at the same place, where one has its domain if it has one. */
  lemma SameFront(s: string, t: string, front: string, c: string, d: string)
    requires s == front + c && t == front + d && SameButCase(c, d) && (s == t || '@' in s || '@' in t)
    requires '@' in s ==> IsAddress(s, front, c)
    requires '@' in t ==> IsAddress(t, front, d)
    ensures s == t || exists local, e, f :: IsAddress(s, local, e) && IsAddress(t, local, f) && SameButCase(e, f)
  {
    if '@' in s || '@' in t {
      assert '@' in c <==> '@' in d by { AtIsNoLetter(c, d); }
      assert IsAddress(s, front, c) && IsAddress(t, front, d);
    }
  }

  lemma AtIsNoLetter(c: string, d: string)
    requires SameButCase(c, d)
    ensures '@' in c <==> '@' in d
  {
    if j :| 0 <= j < |c| && c[j] == '@' { assert d[j] == '@'; }
    if j :| 0 <= j < |d| && d[j] == '@' { assert c[j] == '@'; }
  }

  lemma SameLocalPart(s: string, t: string)
    requires LowerFrom(s, DomainStart(s)) == LowerFrom(t, DomainStart(t))
    ensures s == t || exists local, c, d :: IsAddress(s, local, c) && IsAddress(t, local, d) && SameButCase(c, d)
  {
    var i := DomainStart(s);
    LowerKeepsDomain(s);
    LowerKeepsDomain(t);
    LoweredParts(s, t, i);
    AddressOrNot(s);
    AddressOrNot(t);
    var front, c, d := s[..i], s[i..], t[i..];
    assert s == front + c && t == front + d;
    SameFront(s, t, front, c, d);
  }

  /** An address is compared with its local part as it is and its domain in lower case. */
  lemma CanonicalAddress(value: string, local: string, domain: string) returns (lowered: string)
    requires IsAddress(TrimSpace(value), local, domain)
    ensures Canonical(Some(Email), value) == local + lowered && SameButCase(domain, lowered)
    ensures forall i :: 0 <= i < |lowered| ==> !('A' <= lowered[i] <= 'Z')
  {
    AddressIsLowered(TrimSpace(value), local, domain);
    lowered := ToLower(domain);
  }

  lemma AddressHasAt(s: string, local: string, domain: string)
    ensures IsAddress(s, local, domain) ==> '@' in s
  {
    if IsAddress(s, local, domain) { assert s[|local| - 1] == '@'; }
  }

  /** A text without an address is only trimmed, and no other kind of contact is changed at all. */
  lemma OtherTextsStay(kind: Option<ContactKind>, value: string)
    requires kind != Some(Email) || '@' !in TrimSpace(value)
    ensures Canonical(kind, value) == if kind == Some(Email) then TrimSpace(value) else value
  {
    if kind == Some(Email) {
      var s := TrimSpace(value);
      AddressOrNot(s);
      AddressHasAt(s, s[..DomainStart(s)], s[DomainStart(s)..]);
    }
  }
}
