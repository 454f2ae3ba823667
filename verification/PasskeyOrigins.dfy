/** Merging the passkey origins of applications into the CORS configuration: origins are added, never removed. */
module PasskeyOrigins {
  import opened GoText

  /** An allowed origin; patterns and everything else that is no literal are kept as they are. */
  datatype Item = Literal(text: string) | Pattern(raw: string)

  predicate HasWildcard(s: string) {
    '*' in s
  }

  /** An origin worth adding; `parses` is the CORS origin parser's verdict. */
  predicate Acceptable(origin: string, parses: string -> bool) {
    var trimmed := TrimSpace(origin);
    trimmed != "" && !HasWildcard(trimmed) && trimmed != "null" && parses(trimmed)
  }

  function Literals(items: seq<Item>): set<string> {
    set item <- items | item.Literal? :: item.text
  }

  /** The items after merging the origins in order. */
  function Merged(items: seq<Item>, origins: seq<string>, parses: string -> bool): seq<Item>
    decreases |origins|
  {
    if origins == [] then items else
    var before := Merged(items, origins[..|origins| - 1], parses);
    var last := origins[|origins| - 1];
    if Acceptable(last, parses)
        && TrimSpace(last) !in Literals(before) then before + [Literal(TrimSpace(last))] else before
  }

  lemma MergedStep(items: seq<Item>, origins: seq<string>, i: nat, parses: string -> bool)
    requires i < |origins|
    ensures var before, trimmed := Merged(items, origins[..i], parses), TrimSpace(origins[i]);
            Merged(items, origins[..i + 1], parses) ==
            if Acceptable(origins[i], parses)
                && trimmed !in Literals(before) then before + [Literal(trimmed)] else before
  {
    assert origins[..i + 1][..i] == origins[..i];
  }

  /** The literals a list of origins stands for. */
  function Wanted(origins: seq<string>, parses: string -> bool): set<string> {
    set origin <- origins | Acceptable(origin, parses) :: TrimSpace(origin)
  }

  /** Exactly the trimmed origins that are not empty, name no wildcard, are not "null" and parse. */
  lemma WantedExactly(origins: seq<string>, parses: string -> bool, text: string)
    ensures text in Wanted(origins, parses) <==>
            && (exists origin <- origins :: TrimSpace(origin) == text)
            && text != "" && text != "null" && (forall i :: 0 <= i < |text| ==> text[i] != '*') && parses(text)
  {
  }

  lemma LiteralsAppend(items: seq<Item>, item: Item)
    ensures Literals(items + [item]) == Literals(items) + (if item.Literal? then {item.text} else {})
  {
    assert forall other :: other in items + [item] <==> other in items || other == item;
  }

  lemma WantedSplits(origins: seq<string>, parses: string -> bool)
    requires origins != []
    ensures var last := origins[|origins| - 1];
            Wanted(origins, parses) == Wanted(origins[..|origins| - 1], parses)
                                       + (if Acceptable(last, parses) then {TrimSpace(last)} else {})
  {
    var front, last := origins[..|origins| - 1], origins[|origins| - 1];
    assert origins == front + [last];
  }

  /** All existing items stay, in place, and the literals afterwards are the old ones and the wanted ones. */
  lemma {:induction false} MergedAddsTheWanted(items: seq<Item>, origins: seq<string>, parses: string -> bool)
    ensures items <= Merged(items, origins, parses)
    ensures Literals(Merged(items, origins, parses)) == Literals(items) + Wanted(origins, parses)
    decreases |origins|
  {
    if origins != [] {
      var front, last := origins[..|origins| - 1], origins[|origins| - 1];
      MergedAddsTheWanted(items, front, parses);
      WantedSplits(origins, parses);
      LiteralsAppend(Merged(items, front, parses), Literal(TrimSpace(last)));
    }
  }

  /** What is added is literals only, each new and each once. */
  lemma {:induction false} AddedOnce(items: seq<Item>, origins: seq<string>, parses: string -> bool)
    ensures var merged := Merged(items, origins, parses);
            && |items| <= |merged|
            && (forall i :: |items| <= i < |merged| ==>
                  merged[i].Literal? && merged[i].text in Wanted(origins, parses) && merged[i].text !in Literals(items))
            && (forall i, j :: |items| <= i < j < |merged| ==> merged[i] != merged[j])
    decreases |origins|
  {
    MergedAddsTheWanted(items, origins, parses);
    if origins != [] {
      var front, last := origins[..|origins| - 1], origins[|origins| - 1];
      AddedOnce(items, front, parses);
      MergedAddsTheWanted(items, front, parses);
      WantedSplits(origins, parses);
      var before := Merged(items, front, parses);
      assert forall i :: 0 <= i < |before| && before[i].Literal? ==>
          before[i] in before && before[i].text in Literals(before);
    }
  }

  lemma {:induction false} NothingToAdd(items: seq<Item>, origins: seq<string>, parses: string -> bool)
    requires Wanted(origins, parses) <= Literals(items)
    ensures Merged(items, origins, parses) == items
    decreases |origins|
  {
    if origins != [] {
      WantedSplits(origins, parses);
      NothingToAdd(items, origins[..|origins| - 1], parses);
    }
  }

  /** A second run adds nothing. */
  lemma MergingAgainAddsNothing(items: seq<Item>, origins: seq<string>, parses: string -> bool)
    ensures var merged := Merged(items, origins, parses); Merged(merged, origins, parses) == merged
  {
    MergedAddsTheWanted(items, origins, parses);
    NothingToAdd(Merged(items, origins, parses), origins, parses);
  }

  /** The origins of several applications merged one after the other. */
  function MergedAll(items: seq<Item>, applications: seq<seq<string>>, parses: string -> bool): seq<Item>
    decreases |applications|
  {
    if applications == [] then items
    else Merged(MergedAll(items, applications[..|applications| - 1], parses), applications[|applications| - 1], parses)
  }

  function WantedByAll(applications: seq<seq<string>>, parses: string -> bool): set<string> {
    set origins <- applications, origin <- origins | Acceptable(origin, parses) :: TrimSpace(origin)
  }

  lemma {:induction false} AllAreAdded(items: seq<Item>, applications: seq<seq<string>>, parses: string -> bool)
    ensures Literals(MergedAll(items, applications, parses)) == Literals(items) + WantedByAll(applications, parses)
    decreases |applications|
  {
    if applications != [] {
      var front, last := applications[..|applications| - 1], applications[|applications| - 1];
      AllAreAdded(items, front, parses);
      MergedAddsTheWanted(MergedAll(items, front, parses), last, parses);
      assert applications == front + [last];
      assert WantedByAll(applications, parses) == WantedByAll(front, parses) + Wanted(last, parses);
    }
  }

  /** In whatever order applications are saved, the same literal origins are allowed in the end. */
  lemma OrderDoesNotMatter(items: seq<Item>, applications: seq<seq<string>>, reordered: seq<seq<string>>,
      parses: string -> bool)
    requires multiset(applications) == multiset(reordered)
    ensures Literals(MergedAll(items, applications, parses)) == Literals(MergedAll(items, reordered, parses))
  {
    AllAreAdded(items, applications, parses);
    AllAreAdded(items, reordered, parses);
    assert forall origins :: origins in applications <==> origins in multiset(applications);
    assert forall origins :: origins in reordered <==> origins in multiset(reordered);
  }

  /** The writable CORS configuration; `writes` counts how often it was set. */
  class CorsConfig {
    var allowedOrigins: seq<Item>
    var writes: nat

    constructor (allowedOrigins: seq<Item>)
      ensures this.allowedOrigins == allowedOrigins && writes == 0
    {
      this.allowedOrigins, writes := allowedOrigins, 0;
    }

    static method CollectLiterals(items: seq<Item>) returns (literals: set<string>)
      ensures literals == Literals(items)
    {
      literals := {};
      var i := 0;
      while i < |items|
        invariant 0 <= i <= |items|
        invariant literals == Literals(items[..i])
      {
        assert items[..i + 1] == items[..i] + [items[i]];
        LiteralsAppend(items[..i], items[i]);
        if items[i].Literal? { literals := literals + {items[i].text}; }
        i := i + 1;
      }
      assert items[..i] == items;
    }

    static method AddOrigins(items: seq<Item>, origins: seq<string>, parses: string -> bool)
      returns (existing: seq<Item>, added: bool)
      ensures existing == Merged(items, origins, parses)
      ensures added <==> existing != items
    {
      existing, added := items, false;
      var literals := CollectLiterals(items);
      var i := 0;
      assert origins[..i] == [];
      while i < |origins|
        invariant 0 <= i <= |origins|
        invariant existing == Merged(items, origins[..i], parses)
        invariant literals == Literals(existing)
        invariant if added then |existing| > |items| else existing == items
      {
        MergedStep(items, origins, i, parses);
        var trimmed := TrimSpace(origins[i]);
        if trimmed == "" || HasWildcard(trimmed) || trimmed == "null" {
        } else if !parses(trimmed) {
        } else if trimmed !in literals {
          LiteralsAppend(existing, Literal(trimmed));
          existing := existing + [Literal(trimmed)];
          literals := literals + {trimmed};
          added := true;
        }
        i := i + 1;
      }
      assert origins[..i] == origins;
    }

    /** Failing to read or to write leaves the configuration as it is; it is written only when something is new. */
    method SyncPasskeyOrigins(origins: seq<string>, parses: string -> bool, readFails: bool, writeFails: bool)
      modifies this
      ensures allowedOrigins == if readFails || writeFails then old(allowedOrigins)
                                else Merged(old(allowedOrigins), origins, parses)
      ensures writes == old(writes) + if allowedOrigins != old(allowedOrigins) then 1 else 0
    {
      if |origins| == 0 || readFails { return; }
      var existing, added := AddOrigins(allowedOrigins, origins, parses);
      if !added || writeFails { return; }
      allowedOrigins := existing;
      writes := writes + 1;
    }
  }
}
