/**
 The generator: messages are grouped by key, repeated keys refused, and the rest written as one sorted map literal.
 Its output depends on neither the order of its input nor the order in which a Go map is walked.
 */
module I18nGenerator {
  import opened Utf8
  import opened I18nExtractor

  /** Go's order on strings, byte by byte. */
  predicate Less(a: bytes, b: bytes)
    decreases |a|
  {
    b != [] && (a == [] || a[0] < b[0] || (a[0] == b[0] && Less(a[1..], b[1..])))
  }

  /** Ascending: at the first difference the smaller byte comes first, and a prefix comes before what it begins. */
  predicate FirstDifference(a: bytes, b: bytes, k: nat) {
    k <= |a| && k < |b| && a[..k] == b[..k] && (k == |a| || a[k] < b[k])
  }

  lemma {:induction false} LessExactly(a: bytes, b: bytes)
    ensures Less(a, b) <==> exists k: nat :: FirstDifference(a, b, k)
    decreases |a|
  {
    forall k: nat | FirstDifference(a, b, k) && k > 0 ensures a[0] == b[0] {
      assert a[..k][0] == a[0] && b[..k][0] == b[0];
    }
    if a == [] || b == [] || a[0] != b[0] {
      if Less(a, b) { assert FirstDifference(a, b, 0); }
    } else {
      LessExactly(a[1..], b[1..]);
      if k: nat :| FirstDifference(a[1..], b[1..], k) {
        assert a[..k + 1] == [a[0]] + a[1..][..k] && b[..k + 1] == [b[0]] + b[1..][..k];
        assert FirstDifference(a, b, k + 1);
      }
      forall k: nat | FirstDifference(a, b, k) ensures Less(a, b) {
        assert k > 0 && a[1..][..k - 1] == a[..k][1..] && b[1..][..k - 1] == b[..k][1..];
        assert FirstDifference(a[1..], b[1..], k - 1);
      }
    }
  }

  lemma {:induction false} LessIsStrict(a: bytes, b: bytes)
    ensures !(Less(a, b) && Less(b, a))
    ensures Less(a, b) ==> a != b
    decreases |a|
  {
    if a != [] && b != [] && a[0] == b[0] { LessIsStrict(a[1..], b[1..]); }
  }

  lemma {:induction false} LessIsTotal(a: bytes, b: bytes)
    ensures Less(a, b) || Less(b, a) || a == b
    decreases |a|
  {
    if a != [] && b != [] && a[0] == b[0] {
      LessIsTotal(a[1..], b[1..]);
      assert a == [a[0]] + a[1..] && b == [b[0]] + b[1..];
    }
  }

  lemma {:induction false} LessIsTransitive(a: bytes, b: bytes, c: bytes)
    requires Less(a, b) && Less(b, c)
    ensures Less(a, c)
    decreases |a|
  {
    if a != [] && a[0] == b[0] == c[0] { LessIsTransitive(a[1..], b[1..], c[1..]); }
  }

  predicate StrictlySorted(keys: seq<bytes>) {
    forall i, j :: 0 <= i < j < |keys| ==> Less(keys[i], keys[j])
  }

  // Sorting keys that are all different, standing for sort.Strings

  function Insert(key: bytes, keys: seq<bytes>): seq<bytes> {
    if keys == [] then [key]
    else if Less(key, keys[0]) then [key] + keys
    else [keys[0]] + Insert(key, keys[1..])
  }

  function Sorted(keys: seq<bytes>): seq<bytes> {
    if keys == [] then [] else Insert(keys[0], Sorted(keys[1..]))
  }

  lemma {:induction false} InsertedElements(key: bytes, keys: seq<bytes>)
    ensures forall k :: k in Insert(key, keys) <==> k == key || k in keys
  {
    if keys != [] && !Less(key, keys[0]) {
      InsertedElements(key, keys[1..]);
      assert keys == [keys[0]] + keys[1..];
    }
  }

  lemma PrependKeepsSorted(first: bytes, keys: seq<bytes>)
    requires StrictlySorted(keys) && forall k :: k in keys ==> Less(first, k)
    ensures StrictlySorted([first] + keys)
  {
    var all := [first] + keys;
    forall i, j | 0 <= i < j < |all| ensures Less(all[i], all[j]) {
      if i == 0 { assert all[j] in keys; }
    }
  }

  lemma {:induction false} InsertKeepsSorted(key: bytes, keys: seq<bytes>)
    requires StrictlySorted(keys) && key !in keys
    ensures StrictlySorted(Insert(key, keys))
  {
    if keys != [] {
      var first, rest := keys[0], keys[1..];
      assert keys == [first] + rest;
      if Less(key, first) {
        forall k | k in keys ensures Less(key, k) {
          if k != first {
            var j :| 0 < j < |keys| && keys[j] == k;
            LessIsTransitive(key, first, k);
          }
        }
        PrependKeepsSorted(key, keys);
      } else {
        LessIsTotal(key, first);
        InsertKeepsSorted(key, rest);
        InsertedElements(key, rest);
        forall k | k in Insert(key, rest) ensures Less(first, k) {
          if k != key {
            var j :| 0 <= j < |rest| && rest[j] == k;
            assert keys[j + 1] == k;
          }
        }
        PrependKeepsSorted(first, Insert(key, rest));
      }
    }
  }

  predicate AllDifferent(keys: seq<bytes>) {
    forall i, j :: 0 <= i < j < |keys| ==> keys[i] != keys[j]
  }

  lemma {:induction false} SortedIsSorted(keys: seq<bytes>)
    requires AllDifferent(keys)
    ensures StrictlySorted(Sorted(keys)) && forall k :: k in Sorted(keys) <==> k in keys
  {
    if keys != [] {
      var first, rest := keys[0], keys[1..];
      assert keys == [first] + rest;
      assert forall j :: 0 <= j < |rest| ==> rest[j] == keys[j + 1] != first;
      SortedIsSorted(rest);
      InsertedElements(first, Sorted(rest));
      InsertKeepsSorted(first, Sorted(rest));
    }
  }

  // What is generated

  /** The messages of a key, in order. */
  function WithKey(messages: seq<Message>, key: bytes): seq<Message>
    decreases |messages|
  {
    if messages == [] then [] else
    var last := messages[|messages| - 1];
    WithKey(messages[..|messages| - 1], key) + (if last.key == key then [last] else [])
  }

  function KeyCount(messages: seq<Message>, key: bytes): nat {
    |WithKey(messages, key)|
  }

  datatype Output = Generated(entries: seq<Message>) | Repeated(keys: seq<bytes>)

  function EntryKeys(entries: seq<Message>): seq<bytes> {
    seq(|entries|, i requires 0 <= i < |entries| => entries[i].key)
  }

  /** No key twice, or the error that names exactly the keys that are. */
  ghost predicate IsOutput(messages: seq<Message>, output: Output) {
    match output
    case Generated(entries) =>
      && (forall key :: KeyCount(messages, key) <= 1)
      && StrictlySorted(EntryKeys(entries))
      && (forall m :: m in entries <==> m in messages)
    case Repeated(keys) =>
      && keys != []
      && (forall key :: key in keys <==> KeyCount(messages, key) > 1)
  }

  lemma {:induction false} WithKeyElements(messages: seq<Message>, key: bytes, m: Message)
    ensures m in WithKey(messages, key) <==> m in messages && m.key == key
    decreases |messages|
  {
    if messages != [] {
      var front, last := messages[..|messages| - 1], messages[|messages| - 1];
      WithKeyElements(front, key, m);
      assert messages == front + [last];
    }
  }

  ghost predicate IsGrouping(groups: map<bytes, seq<Message>>, messages: seq<Message>) {
    forall key ::
      && (key in groups <==> WithKey(messages, key) != [])
      && (key in groups ==> groups[key] == WithKey(messages, key))
  }

  /** Appends to the messages of a key; a missing key has none yet. */
  function Appended(groups: map<bytes, seq<Message>>, m: Message): map<bytes, seq<Message>> {
    groups[m.key := (if m.key in groups then groups[m.key] else []) + [m]]
  }

  function Grouped(messages: seq<Message>): map<bytes, seq<Message>>
    decreases |messages|
  {
    if messages == [] then map[] else Appended(Grouped(messages[..|messages| - 1]), messages[|messages| - 1])
  }

  lemma {:induction false} GroupedIsGrouping(messages: seq<Message>)
    ensures IsGrouping(Grouped(messages), messages)
    decreases |messages|
  {
    if messages != [] {
      GroupedIsGrouping(messages[..|messages| - 1]);
    }
  }

  method GroupByKey(messages: seq<Message>) returns (groups: map<bytes, seq<Message>>)
    ensures groups == Grouped(messages)
  {
    groups := map[];
    var i := 0;
    while i < |messages|
      invariant 0 <= i <= |messages|
      invariant groups == Grouped(messages[..i])
    {
      assert messages[..i + 1][..i] == messages[..i];
      groups := Appended(groups, messages[i]);
      i := i + 1;
    }
    assert messages[..i] == messages;
  }

  /** The keys with more than one message, in whatever order the map is walked. */
  method RepeatedKeys(groups: map<bytes, seq<Message>>) returns (keys: seq<bytes>)
    ensures forall key :: key in keys <==> key in groups && |groups[key]| > 1
  {
    keys := [];
    var left := groups.Keys;
    while left != {}
      invariant left <= groups.Keys
      invariant forall key :: key in keys <==> key in groups && key !in left && |groups[key]| > 1
      decreases |left|
    {
      var key :| key in left;
      if |groups[key]| > 1 { keys := keys + [key]; }
      left := left - {key};
    }
  }

  /** All keys, in whatever order the map is walked. */
  method CollectKeys(groups: map<bytes, seq<Message>>) returns (keys: seq<bytes>)
    ensures AllDifferent(keys) && forall key :: key in keys <==> key in groups
  {
    keys := [];
    var left := groups.Keys;
    while left != {}
      invariant left <= groups.Keys
      invariant AllDifferent(keys) && forall key :: key in keys <==> key in groups && key !in left
      decreases |left|
    {
      var key :| key in left;
      keys := keys + [key];
      left := left - {key};
    }
  }

  method Generate(messages: seq<Message>) returns (output: Output)
    ensures IsOutput(messages, output)
  {
    var groups := GroupByKey(messages);
    GroupedIsGrouping(messages);
    var repeated := RepeatedKeys(groups);
    if repeated != [] { return Repeated(repeated); }
    assert forall key <- groups :: |groups[key]| == 1 by {
      forall key <- groups ensures |groups[key]| == 1 { assert key !in repeated; }
    }
    var keys := CollectKeys(groups);
    SortedIsSorted(keys);
    keys := Sorted(keys);
    var entries := BuildEntries(groups, keys);
    EntriesAreTheMessages(messages, groups, keys, entries);
    output := Generated(entries);
  }

  method BuildEntries(groups: map<bytes, seq<Message>>, keys: seq<bytes>) returns (entries: seq<Message>)
    requires forall key <- keys :: key in groups && groups[key] != []
    ensures |entries| == |keys| && forall j :: 0 <= j < |keys| ==> entries[j] == groups[keys[j]][0]
  {
    entries := [];
    var i := 0;
    while i < |keys|
      invariant 0 <= i <= |keys|
      invariant |entries| == i && forall j :: 0 <= j < i ==> entries[j] == groups[keys[j]][0]
    {
      entries := entries + [groups[keys[i]][0]];
      i := i + 1;
    }
  }

  lemma OnlyMessageOfItsKey(messages: seq<Message>, groups: map<bytes, seq<Message>>, key: bytes)
    requires IsGrouping(groups, messages) && key in groups && |groups[key]| == 1
    ensures groups[key][0] in messages && groups[key][0].key == key
  {
    WithKeyElements(messages, key, groups[key][0]);
  }

  lemma MessageIsGrouped(messages: seq<Message>, groups: map<bytes, seq<Message>>, m: Message)
    requires IsGrouping(groups, messages) && m in messages && (forall key <- groups :: |groups[key]| == 1)
    ensures m.key in groups && groups[m.key] == [m]
  {
    WithKeyElements(messages, m.key, m);
    assert WithKey(messages, m.key) != [];
  }

  lemma EntriesAreTheMessages(messages: seq<Message>, groups: map<bytes, seq<Message>>, keys: seq<bytes>,
      entries: seq<Message>)
    requires IsGrouping(groups, messages) && forall key <- groups :: |groups[key]| == 1
    requires forall key :: key in keys <==> key in groups
    requires |entries| == |keys| && forall j :: 0 <= j < |keys| ==> entries[j] == groups[keys[j]][0]
    ensures EntryKeys(entries) == keys
    ensures forall m :: m in entries <==> m in messages
  {
    forall j | 0 <= j < |keys| ensures entries[j] in messages && entries[j].key == keys[j] {
      OnlyMessageOfItsKey(messages, groups, keys[j]);
    }
    forall m | m in messages ensures m in entries {
      MessageIsGrouped(messages, groups, m);
      var j :| 0 <= j < |keys| && keys[j] == m.key;
      assert entries[j] == m;
    }
  }

  // The output depends on the messages only

  lemma {:induction false} WithKeyAppends(a: seq<Message>, b: seq<Message>, key: bytes)
    ensures WithKey(a + b, key) == WithKey(a, key) + WithKey(b, key)
    decreases |b|
  {
    if b == [] {
      assert a + b == a;
    } else {
      WithKeyAppends(a, b[..|b| - 1], key);
      assert (a + b)[..|a + b| - 1] == a + b[..|b| - 1];
    }
  }

  lemma TakeOne(b: seq<Message>, x: Message, key: bytes) returns (rest: seq<Message>)
    requires x in b
    ensures multiset(b) == multiset(rest) + multiset{x}
    ensures KeyCount(b, key) == KeyCount(rest, key) + (if x.key == key then 1 else 0)
  {
    var j :| 0 <= j < |b| && b[j] == x;
    var front, back := b[..j], b[j + 1..];
    rest := front + back;
    assert b == front + ([x] + back);
    WithKeyAppends(front, [x] + back, key);
    WithKeyAppends([x], back, key);
    WithKeyAppends(front, back, key);
    assert [x][..0] == [];
  }

  lemma {:induction false} KeyCountIsUnordered(a: seq<Message>, b: seq<Message>, key: bytes)
    requires multiset(a) == multiset(b)
    ensures KeyCount(a, key) == KeyCount(b, key)
    decreases |a|
  {
    if a == [] {
      assert |multiset(b)| == |multiset(a)| == 0;
    } else {
      var last := a[|a| - 1];
      assert a == a[..|a| - 1] + [last];
      assert last in multiset(b);
      var rest := TakeOne(b, last, key);
      assert multiset(a[..|a| - 1]) == multiset(a) - multiset{last} == multiset(rest);
      KeyCountIsUnordered(a[..|a| - 1], rest, key);
    }
  }

  lemma {:induction false} SortedIsUnique(a: seq<Message>, b: seq<Message>)
    requires StrictlySorted(EntryKeys(a)) && StrictlySorted(EntryKeys(b))
    requires forall m :: m in a <==> m in b
    ensures a == b
    decreases |a|
  {
    assert forall i :: 0 <= i < |a| ==> a[i] in b;
    assert forall i :: 0 <= i < |b| ==> b[i] in a;
    assert a == [] ==> b == [] by { assert b != [] ==> b[0] in a; }
    assert b == [] ==> a == [] by { assert a != [] ==> a[0] in b; }
    if a != [] && b != [] {
      FirstIsLeast(a, b);
      var x, y := a[1..], b[1..];
      assert a == [a[0]] + x && b == [b[0]] + y;
      TailIsSorted(a);
      TailIsSorted(b);
      SortedIsUnique(x, y);
    }
  }

  lemma KeysAreLess(a: seq<Message>, i: nat, j: nat)
    requires StrictlySorted(EntryKeys(a)) && i < j < |a|
    ensures Less(a[i].key, a[j].key)
  {
    assert EntryKeys(a)[i] == a[i].key && EntryKeys(a)[j] == a[j].key;
  }

  lemma FirstIsLeast(a: seq<Message>, b: seq<Message>)
    requires StrictlySorted(EntryKeys(a)) && StrictlySorted(EntryKeys(b)) && a != [] && b != []
    requires forall m :: m in a <==> m in b
    ensures a[0] == b[0]
  {
    assert a[0] in b && b[0] in a;
    var i :| 0 <= i < |b| && b[i] == a[0];
    var j :| 0 <= j < |a| && a[j] == b[0];
    if i > 0 && j > 0 {
      KeysAreLess(b, 0, i);
      KeysAreLess(a, 0, j);
      LessIsStrict(a[0].key, b[0].key);
    }
  }

  lemma TailIsSorted(a: seq<Message>)
    requires StrictlySorted(EntryKeys(a)) && a != []
    ensures StrictlySorted(EntryKeys(a[1..])) && forall m :: m in a[1..] <==> m in a && m != a[0]
  {
    forall i, j | 0 <= i < j < |a[1..]| ensures Less(EntryKeys(a[1..])[i], EntryKeys(a[1..])[j]) {
      KeysAreLess(a, i + 1, j + 1);
    }
    forall m | m in a[1..] ensures m in a && m != a[0] {
      var j :| 0 < j < |a| && a[j] == m;
      KeysAreLess(a, 0, j);
      LessIsStrict(a[0].key, m.key);
    }
  }

  /** Any two outputs for the same messages in any order are the same entries, or errors naming the same keys. */
  lemma OutputIsUnique(messages: seq<Message>, permuted: seq<Message>, a: Output, b: Output)
    requires multiset(messages) == multiset(permuted) && IsOutput(messages, a) && IsOutput(permuted, b)
    ensures a.Generated? <==> b.Generated?
    ensures a.Generated? ==> a == b
    ensures a.Repeated? ==> forall key :: key in a.keys <==> key in b.keys
  {
    forall key ensures KeyCount(messages, key) == KeyCount(permuted, key) {
      KeyCountIsUnordered(messages, permuted, key);
    }
    if a.Repeated? { assert a.keys[0] in a.keys; }
    if b.Repeated? { assert b.keys[0] in b.keys; }
    if a.Generated? && b.Generated? {
      assert forall m :: m in messages <==> m in multiset(messages);
      assert forall m :: m in permuted <==> m in multiset(permuted);
      SortedIsUnique(a.entries, b.entries);
    }
  }
}
