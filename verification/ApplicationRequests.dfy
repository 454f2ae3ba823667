/** What a request for an OAuth client must look like, whether it creates or updates an application. */
module ApplicationRequests {
  import opened Wrappers
  import opened Stores
  import opened ClientIds
  import opened ApplicationJobs

  /** The two ways to authenticate with a client secret. */
  predicate HasSecretMethod(p: OAuthProfile) {
    !p.publicClient && p.authMethod in {ClientSecretBasic, ClientSecretPost}
  }

  /** Nobody else holds the client id. */
  ghost predicate NobodyElseHolds(s: Stores, id: string, clientId: string) {
    forall other :: other in s.entities && s.entities[other].clientId == Some(clientId) ==> other == id && id != ""
  }

  /** Exactly the public clients go without authentication, and a client without a use for a secret names none. */
  predicate ProfileAllowed(r: OAuthRequest) {
    && (r.profile.publicClient <==> r.profile.authMethod == NoAuthentication)
    && (r.profile.authMethod in {PrivateKeyJwt, NoAuthentication} ==> r.secret == "")
  }

  lemma FreeExactly(s: Stores, id: string, clientId: string)
    ensures IsTaken(s.entities, clientId, id) == Free <==> NobodyElseHolds(s, id, clientId)
  {
    var holders := Holders(s.entities, clientId);
    assert forall other :: other in holders <==> other in s.entities && s.entities[other].clientId == Some(clientId);
    if NobodyElseHolds(s, id, clientId) && holders != {} {
      assert forall other :: other in holders ==> other == id;
      var other :| other in holders;
      assert holders == {id};
    }
  }
}
