/**
 Who holds an OAuth client id. Applications and agents are entities of one store and share one space of
 client ids, looked up through a query that answers only when exactly one entity matches.
 */
module ClientIds {
  import opened Wrappers
  import opened Stores

  datatype Lookup = NotFound | Ambiguous | Found(id: string)

  ghost predicate Holds(entities: map<string, Entity>, id: string, clientId: string) {
    id in entities && entities[id].clientId == Some(clientId)
  }

  function Holders(entities: map<string, Entity>, clientId: string): set<string> {
    set id | id in entities && entities[id].clientId == Some(clientId)
  }

  /** The entity a client id identifies, an error when several entities hold it. */
  function Identify(entities: map<string, Entity>, clientId: string): (found: Lookup)
    ensures found.Found? ==> Holders(entities, clientId) == {found.id}
    ensures found.NotFound? <==> Holders(entities, clientId) == {}
  {
    var holders := Holders(entities, clientId);
    if holders == {} then NotFound
    else if exists id :: id in holders && holders == {id} then
      var id :| id in holders && holders == {id};
      Found(id)
    else Ambiguous
  }

  datatype Check = Free | Taken | CheckFailed

  /** Whether the client id is free for the entity excluded from the check; "" excludes none. */
  function IsTaken(entities: map<string, Entity>, clientId: string, excludeId: string): Check {
    match Identify(entities, clientId)
    case NotFound => Free
    case Ambiguous => CheckFailed
    case Found(id) => if excludeId != "" && id == excludeId then Free else Taken
  }
}
