/** Which agents an export covers: the listing is read page by page until a page comes back empty. */
module AgentListing {
  const MAX_PAGE_SIZE := 100

  datatype Entry = Entry(id: string, readOnly: bool)

  /** The page the agent listing answers with. */
  function Page(all: seq<Entry>, limit: nat, offset: nat): (page: seq<Entry>)
    ensures |page| <= limit
  {
    if offset >= |all| then []
    else if offset + limit >= |all| then all[offset..]
    else all[offset..offset + limit]
  }

  /** The agents that are not declarative, in the order listed. */
  function Exported(all: seq<Entry>): seq<string>
    decreases |all|
  {
    if all == [] then []
    else Exported(all[..|all| - 1]) + (if all[|all| - 1].readOnly then [] else [all[|all| - 1].id])
  }

  lemma {:induction false} ExportedSplits(a: seq<Entry>, b: seq<Entry>)
    ensures Exported(a + b) == Exported(a) + Exported(b)
    decreases |b|
  {
    if b == [] {
      assert a + b == a;
    } else {
      ExportedSplits(a, b[..|b| - 1]);
      assert (a + b)[..|a + b| - 1] == a + b[..|b| - 1];
    }
  }

  /** With `ExportedSplits` this says of every listing what is exported: the agents that are not read-only, in order. */
  lemma ExportedOfOne(e: Entry)
    ensures Exported([]) == []
    ensures Exported([e]) == if e.readOnly then [] else [e.id]
  {
    assert [e][..0] == [];
  }

  /** Every agent that is not declarative, once and in order, however many pages there are. */
  method GetAllResourceIds(all: seq<Entry>) returns (ids: seq<string>)
    ensures ids == Exported(all)
  {
    var offset := 0;
    ids := [];
    while true
      invariant 0 <= offset <= |all|
      invariant ids == Exported(all[..offset])
      decreases |all| - offset
    {
      var page := Page(all, MAX_PAGE_SIZE, offset);
      var i := 0;
      while i < |page|
        invariant 0 <= i <= |page|
        invariant ids == Exported(all[..offset]) + Exported(page[..i])
      {
        assert page[..i + 1][..i] == page[..i];
        if !page[i].readOnly { ids := ids + [page[i].id]; }
        i := i + 1;
      }
      assert page[..i] == page && all[..offset + |page|] == all[..offset] + page;
      ExportedSplits(all[..offset], page);
      offset := offset + |page|;
      if |page| == 0 { break; }
    }
    assert all[..offset] == all;
  }
}
