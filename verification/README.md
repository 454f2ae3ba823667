# ThunderID: a verified model of resource management

ThunderID is an identity and access management server. This Dafny project models the parts of it whose promises span
several stores, several calls or several representations of one value, and proves those promises.

| Component | Files | What is proved |
|---|---|---|
| Application lifecycle | `Stores`, `ClientIds`, `ApplicationJobs`, `ApplicationMachine`, `ApplicationCalls`, `ApplicationRequests`, `ApplicationCreation`, `ApplicationUpdates`, `ApplicationDeletion`, `ApplicationFaults`, `ApplicationSecrets`, `ApplicationSecretRaces`, `ApplicationRotation`, `ApplicationRaces`, `ApplicationService`, `ClientIdUniqueness` | Create, update, delete, share and credential regeneration as sequences of store calls, any of which can fail and between any two of which tokens are issued and other operations run |
| Agent lifespans | `Calendar`, `Timestamps`, `TimestampGrammar`, `Lifespans`, `LifespanUpdates`, `AgentLifespans`, `AgentLifespanRules`, `AgentLifespanService`, `LifespanExport`, `AgentListing` | The order and the text of a lifespan's end, the event log as a refinement of the store, and export, import and view |
| Message extractor | `Utf8`, `GoLiterals`, `I18nExtractor`, `I18nLiterals`, `I18nGenerator`, `I18nDefaults` | From source expressions to the generated map literal and back |
| Attribute verification | `ContactValues`, `AttributeVerification`, `VerificationMarks`, `AttributeVerificationService` | An optimistic compare-and-set under interference |
| Normalisers | `AppAttest`, `GrantTypes`, `PasskeyOrigins` (with `GoText`, `Wrappers`) | Authenticator data, grant types of agents, passkey origins merged into CORS |

Code that changes stores step by step is a class whose methods make the same changes in the same order
(`ApplicationService`, `AgentLifespanService`, `AttributeVerificationService`, `Agent`, `ConfigObject`, `CorsConfig`)
or a method with the source's loops. Each such method is proved equal to a function of the old state, and the promises
are proved about that function, over whole runs where they concern runs. `ApplicationJobs` has one step function for
each operation (`StepCreate`, `StepUpdate`, `StepDelete`, `StepShare`, `StepRegenerate`) that makes one store call at
a time; `ApplicationMachine` interleaves them with each other, with failures, with crashes and with token issuance.

## Where the code falls short of a promise

The code is modelled as it is. Where a promise fails, the condition under which it holds is proved, and the failure is
shown.

- The revocation cutoff of a delete is recorded against the client id the application holds at that moment. Tokens
  issued under a client id it held earlier stay live (`ApplicationRaces.ClientIdChangeLeavesLiveTokens`). A delete
  leaves nothing live exactly when every live token is under the current client id
  (`ApplicationDeletion.DeleteRevokesAllExactly`).
- A secret rotation covers every token of the old secret, in all runs that take it to its successful end while nobody
  else changes the application's client id, exactly when the same update keeps the client id and no live token of that
  secret is under an earlier one (`ApplicationRotation.RotationIsSafeExactly`). An update that leaves the client id
  empty gets a new one. When another update changes the client id in between, a live token of the old secret is left
  (`ApplicationRotation.RenameDuringRotationLeavesLiveToken`).
- An update that switches a client to secret authentication writes the inbound client before the credential. Cut short
  in between, the client has no secret (`ApplicationSecretRaces.UpdateCutShortLosesTheSecret`;
  `ApplicationSecrets.EventKeepsSecretsIff` gives the exact condition), and repeating the update without naming a
  secret does not repair it (`ApplicationRotation.RetryRepairsOnlyWithASecret`).
- Without any such cut, secrets are kept in every run exactly as long as at most two updates of one application are in
  progress at a time and only deletes, regenerations and shares overlap with a delete of it
  (`ApplicationSecretRaces.SecretsAreSafeExactly`). Three updates, and a delete with an update or with a create, each
  lose a secret (`ApplicationSecretRaces.ThreeUpdatesLoseTheSecret`,
  `ApplicationSecretRaces.DeleteDuringUpdateLosesTheSecret`,
  `ApplicationSecretRaces.DeleteDuringCreateLosesTheSecret`).
- What deletion promises holds in every run exactly as long as only deletes and regenerations overlap with a delete of
  the same application (`ApplicationRaces.OverlapIsSafeExactly`). An overlapping create, update or share each breaks
  it (`ApplicationRaces.CreateDuringDeleteLeavesLiveToken`, `ApplicationRaces.UpdateDuringDeleteLeavesLiveToken`,
  `ApplicationRaces.ShareDuringDeleteIsLeftBehind`). For these promises every overlap without a delete is harmless.
- The client id check of an agent update excludes the entity whose id equals the agent's current client id, not the
  agent (`backend/internal/agent/service.go:1366`). `ClientIdUniqueness.AgentUpdateKeepsUniqueIff` gives the exact case
  in which two entities then share a client id, and `ClientIdUniqueness.AgentUpdateHandsOutTwice` shows one.
- A stored lifespan before year 0 or from the reserved timestamp on does not survive export or text
  (`Lifespans.TextRoundTripsExactly` and the lemmas of `LifespanExport`). The service itself writes no such value
  (`LifespanExport.RunKeepsStorable`). An unreadable stored lifespan is exported as absent, and an agent created from
  that export never expires (`LifespanExport.UnreadableIsLostOnANewAgent`).
- Registering an agent publishes its lifespan last. When the inbound client fails and the compensation fails too, the
  agent stays with a lifespan no event reports (`AgentLifespans.StuckRegistrationIsUnreported`).
- The extractor keeps a message's meaning exactly when its text is well-formed UTF-8. The bytes of a literal such as
  `"\xff"` are written as they are, unquoting gives other text, and Go compilers refuse the file
  (`I18nDefaults.NamedByteIsLost`), as they refuse NUL characters and byte order marks, which are written as they are
  too (`I18nDefaults.FileIsSourceTextExactly`). A generated file that compilers accept means exactly its messages
  (`I18nDefaults.AcceptedFileMeansItsMessages`).

## Model

| member | source | states |
|---|---|---|
| ApplicationMachine.NextIsSound | backend/internal/application/service.go:862-952 | every store call, failure, crash, token issuance and passing of time keeps policies above clients above entities, and every live token with an application that still holds its client id or has moved away from it; creates, updates, shares and regenerations of one application may overlap, and deletes and regenerations may overlap with its delete |
| ApplicationMachine.RunIsSound | backend/internal/application/service.go:884-950 | the same over whole runs with those overlaps |
| ApplicationMachine.DeleteKeepsOwnSide | backend/internal/application/service.go:892-948 | what each call of a delete has achieved for its own application when the next one starts; it depends on the order of the calls |
| ApplicationMachine.IssueIsSound | backend/internal/application/service.go:927-934 | issuing a token keeps all of it, in particular what a delete has achieved by its second cutoff: there is no client left to issue to |
| ApplicationMachine.FailIsSound | backend/internal/application/service.go:900-948 | a failing call, with whatever part of a cascade or of the localized keys it reached, keeps all of it |
| ApplicationCreation.CreateIsAllOrNothing | backend/internal/application/service.go:181-302 | wherever its calls fail, a create stores the entity, with the named or generated client id and secret, and a client with the profile of the request, or nothing; only when the client and the compensation both fail does the entity stay without a client; it succeeds exactly under a free id for a client id nobody holds and a profile that is allowed |
| ApplicationCreation.ShareOutcome | backend/internal/application/service.go:2958-3011 | a policy is recorded exactly for an application with an inbound client, unless the application is declared and its own unit shares it, and nothing else is written |
| ApplicationCreation.RegenerateOutcome | backend/internal/application/service.go:1046-1109 | regeneration succeeds exactly for an own application that uses a secret, replaces that secret and nothing else, and revokes nothing by itself |
| ApplicationUpdates.UpdateOutcome | backend/internal/application/service.go:615-706 | an update that no call fails, from any state: it succeeds exactly for an own application with a client, a client id nobody else holds, an allowed profile and a secret that can be written; the client row is then the profile of the request or none, client id and secret are those named, generated or kept, nothing else is written, and exactly a replaced secret revokes, the tokens issued so far to the current client id; a refused one writes nothing |
| ApplicationUpdates.LoadsExactly | backend/internal/application/service.go:2343-2444 | exactly which updates pass the checks before any write, and what they then are about to write |
| ApplicationRequests.FreeExactly | backend/internal/application/service.go:1327-1345 | the availability check answers free exactly when nobody but the application itself holds the client id, whether or not client ids are unique |
| ApplicationFaults.UpdateStopsWhereItFails | backend/internal/application/service.go:637-687 | an update whose call fails leaves exactly what the calls before it have written: the cutoff, the client, the client id, the secret, in this order |
| ApplicationFaults.DeleteStopsWhereItFails | backend/internal/application/service.go:862-952 | a delete whose call fails leaves exactly what the calls before it have left: the cutoff, the dependents, the policies, the client, the cutoff again, the entity, the localized keys, in this order, and of a failing cascade or key removal what it had reached |
| ApplicationFaults.UpdateFindsOtherwise | backend/internal/application/service.go:637-687 | what an update under way refuses or fails on, whatever others did since it was loaded |
| ApplicationFaults.DeleteFindsOtherwise | backend/internal/application/service.go:884-952 | a delete under way stops exactly at a pre flow that finds no entity or a blocking dependent |
| ApplicationFaults.OthersFindOtherwise | backend/internal/application/service.go:252-272 | a create under way finds its id taken, a regeneration its entity gone, and a share looks no more |
| ApplicationDeletion.LayersHold | backend/internal/application/service.go:907-945 | in every state reached while only deletes and regenerations overlap with a delete, a shared application has an inbound client and an inbound client has an entity |
| ApplicationDeletion.NoTokenOutlivesItsApplication | backend/internal/application/constants.go:40-42 | with system flows on and only deletes and regenerations overlapping with a delete, once the entity is gone every token ever issued to the application is at or before the cutoff, or was issued under a client id an update had replaced for good |
| ApplicationDeletion.NewApplicationStartsBare | backend/internal/application/service.go:907-911 | an id free to be created again has no policy, no inbound client and no live token of a client id it still held, in the same runs |
| ApplicationDeletion.LaterTokensAreLive | backend/internal/oauth/oauth2/revocation/store_constants.go:52-64 | after any run, a token issued once time has passed is live: no cutoff lies ahead of the time it was recorded at |
| ApplicationDeletion.LeavesExactly | backend/internal/application/service.go:666-687 | a client id counts as left exactly when an event leaves its application there with another one |
| ApplicationDeletion.IssuesExactly | backend/internal/oauth/oauth2/revocation/store_constants.go:77-98 | a token is issued exactly to an application with a client id, an OAuth client and, if it authenticates with one, a secret, and names all three |
| ApplicationDeletion.DeleteConverges | backend/internal/application/service.go:862-952 | from any state, a failure-free delete is refused without a trace exactly for a foreign, declared or blocked entity; otherwise nothing is left for the id, everything else is unchanged, and a second delete changes nothing and is the silent no-op |
| ApplicationDeletion.DeleteRevokes | backend/internal/application/service.go:884-934 | after a delete a token, issued before or after it, is revoked exactly if it was before, or was issued by then to the client id the entity named |
| ApplicationDeletion.DeleteRevokesAllExactly | backend/internal/application/service.go:1000-1009 | a delete leaves no live token of its application if and only if all its live tokens are under its current client id |
| ApplicationRaces.ClientIdChangeLeavesLiveTokens | backend/internal/application/service.go:666-687 | an update to another client id followed by a delete, both successful, leaves a live token |
| ApplicationRaces.CreateDuringDeleteLeavesLiveToken | backend/internal/application/service.go:869-951 | from empty stores, a create overlapping a delete that found no entity is deleted without any flow, reported as a no-op, with a live token |
| ApplicationRaces.UpdateDuringDeleteLeavesLiveToken | backend/internal/application/service.go:884-934 | from empty stores, an update to another client id after the first cutoff of a delete leaves a live token of that client id when both have succeeded |
| ApplicationRaces.ShareDuringDeleteIsLeftBehind | backend/internal/application/service.go:2990-3011 | from empty stores, a share that checked its application before a delete leaves a policy without application after it |
| ApplicationRaces.OverlapIsSafeExactly | backend/internal/application/service.go:862-952 | all runs from empty stores keep what deletion promises if and only if no other kind than deletes and regenerations may overlap with a delete of the same application |
| ApplicationCalls.CallIsARun | backend/internal/application/service.go:181-302 | an uninterrupted call of any operation, failing at any store call, is a run of the interleaved machine |
| ApplicationCalls.CallStaysSound | backend/internal/application/service.go:862-952 | on quiet stores every call, wherever it fails, leaves sound and quiet stores |
| ApplicationServices.ApplicationService.DeleteApplication | backend/internal/application/service.go:850-859 | the stores and the result of the delete job under the same failures; the no-op publishes no event, everything else exactly one |
| ApplicationServices.ApplicationService.RemoveApplication | backend/internal/application/service.go:862-952 | the calls of a delete in the source's order, each of which may fail, are the delete job |
| ApplicationServices.ApplicationService.RemoveLocalizedKeys | backend/internal/application/service.go:2814-2833 | all four fields are attempted, those reached are removed, and one failure fails the whole |
| ApplicationServices.ApplicationService.RunRevocation | backend/internal/application/service.go:970-981 | exactly the tokens of the planned client id issued so far become revoked, and none issued later; with flows off nothing happens |
| Stores.RevokesExactly | backend/internal/oauth/oauth2/revocation/store_constants.go:52-97 | a revocation reaches exactly the tokens of its client id issued up to now and changes nothing but cutoffs |
| Stores.SecretMethods | backend/internal/inboundclient/service.go:1408-1423 | clients that are not public and authenticate with a secret, basic or post, are those that hold one |
| ApplicationServices.ApplicationService.CreateApplication | backend/internal/application/service.go:169-181 | the create job and one event of its outcome |
| ApplicationServices.ApplicationService.WriteApplication | backend/internal/application/service.go:252-272 | entity, inbound client, and the compensating removal that may itself fail |
| ApplicationServices.ApplicationService.UpdateApplication | backend/internal/application/service.go:615-620 | the update job and one event of its outcome |
| ApplicationServices.ApplicationService.ChangeApplication | backend/internal/application/service.go:623-687 | validation, the secret decision, the pre flow of a rotation and the writes are the update job |
| ApplicationServices.ApplicationService.WriteUpdate | backend/internal/application/service.go:666-680 | the inbound client, then the system attributes, then the credential when it changed |
| ApplicationServices.ApplicationService.WriteSecret | backend/internal/application/service.go:780-805 | the credential, and the second cutoff when it replaces one |
| ApplicationServices.ApplicationService.RegenerateSecret | backend/internal/application/service.go:1084-1109 | regeneration as its job; the returned secret is the one stored |
| ApplicationSecrets.EventKeepsSecretsIff | backend/internal/application/service.go:666-680 | with at most two updates of one application in progress and only deletes, regenerations and shares beside its delete, one event leaves every secret-using client with a stored secret, or an update about to store it, if and only if it does not end the last update that owes a missing one |
| ApplicationSecrets.RunKeepsSecrets | backend/internal/application/service.go:780-805 | the same over runs with those overlaps |
| ApplicationSecrets.SecretsAreStored | backend/internal/application/service.go:2411-2444 | after any run from empty stores with those overlaps and without such an end, once nothing is in progress every client that authenticates with a secret has one stored, also after switching away and back |
| ApplicationSecretRaces.UpdateCutShortLosesTheSecret | backend/internal/application/service.go:666-680 | from empty stores and without any overlap, an update to a client secret whose process dies after it has written the client leaves a client that authenticates with a secret it does not have |
| ApplicationSecretRaces.ThreeUpdatesLoseTheSecret | backend/internal/application/service.go:2411-2444 | from empty stores, three overlapping updates leave such a client although none of them ends while it owes a missing secret |
| ApplicationSecretRaces.DeleteDuringUpdateLosesTheSecret | backend/internal/application/service.go:2411-2444 | from empty stores, an update that found a secret and names none goes on after a delete and a new create with a key, and leaves such a client |
| ApplicationSecretRaces.DeleteDuringCreateLosesTheSecret | backend/internal/application/service.go:252-272 | from empty stores, a delete takes the entity of a create before its client is written, and such a client is left |
| ApplicationSecretRaces.SecretsAreSafeExactly | backend/internal/application/service.go:666-680 | all runs from empty stores that cut no last debt short keep the secrets if and only if at most two updates of one application are in progress at a time and no other kind than deletes, regenerations and shares may overlap with its delete |
| ApplicationRotation.SecretClasses | backend/internal/application/service.go:1115-1142 | rotated exactly when the client already used a secret and the request names a different one, first set exactly when it used none and now does; a generated secret never rotates |
| ApplicationRotation.RotationRevokes | backend/internal/application/service.go:641-687 | in every run that takes a rotation to its successful end, with any events between its calls that leave the application's client id alone, a rotation that keeps the client id leaves every token of the old secret revoked |
| ApplicationRotation.RotationIsSafeExactly | backend/internal/application/service.go:641-687 | for a request that replaces the secret: all such runs from the update's first call on leave nothing live of the old secret if and only if the client id named, or generated for none, is the current one and no live token of that secret is under an earlier one |
| ApplicationRotation.WindowUnderNewClientId | backend/internal/application/service.go:666-687 | a run in which a rotation that changes the client id succeeds, time passes, a token is issued before the credential write, and that token of the old secret stays live |
| ApplicationRotation.UnsettledTokenSurvives | backend/internal/application/service.go:641-687 | a run in which a live token under an earlier client id survives a successful rotation |
| ApplicationRotation.RenameDuringRotationLeavesLiveToken | backend/internal/application/service.go:641-687 | from empty stores, a rotation that keeps the client id and another update that changes it in between both succeed and leave a live token of the old secret |
| ApplicationRotation.RetryRepairsOnlyWithASecret | backend/internal/application/service.go:2424-2434 | a secret-using client left without a secret gets one from a successful update exactly when the request names one |
| ApplicationRotation.OthersRespectRely | backend/internal/application/service.go:862-952 | every event of the machine but the update's own, as long as it leaves the client id alone, keeps what the rotation proofs rely on and leaves the update where it stands |
| ClientIdUniqueness.CheckIsExact | backend/internal/application/service.go:1327-1345 | on unique client ids the check answers free exactly when nobody but the excluded entity holds it |
| ClientIdUniqueness.ApplicationCallKeepsUnique | backend/internal/application/service.go:2343-2396 | a call of the application service, stopped anywhere, leaves client ids unique |
| ClientIdUniqueness.AgentUpdateKeepsUniqueIff | backend/internal/agent/service.go:1343-1390 | an agent update keeps client ids unique except exactly when its current client id is another entity's id and that entity holds the requested one |
| ClientIdUniqueness.AgentUpdateHandsOutTwice | backend/internal/agent/service.go:1343-1390 | two agents with different client ids of which an update of one takes the other's |
| ClientIdUniqueness.CreateClaims | backend/internal/agent/service.go:1393-1411 | an agent is created with the client id it names if nobody holds it, with a generated one if it names none, and without one if it asks for no client |
| ClientIdUniqueness.UpdateClaims | backend/internal/agent/service.go:1343-1390 | an updated agent keeps its client id when it names none or the same, gets a generated one when it has none, and another one if nobody holds it but the entity whose id is the current client id |
| ClientIdUniqueness.OperationKeepsUnique | backend/internal/agent/service.go:1053-1071 | the same for agent creation, and for every operation once client ids and entity ids are disjoint |
| ClientIdUniqueness.ClientIdsStayUnique | backend/internal/agent/service.go:1393-1411 | over any sequence of application and agent operations no two entities hold one client id |
| Timestamps.OffsetIsRead | backend/internal/agent/lifespan.go:50-52 | a local time with an offset east or west names the instant that many minutes away |
| Timestamps.WrittenIsRead | backend/internal/agent/lifespan.go:55-60 | every second of years 0 to 9999 survives being written and read |
| Timestamps.OtherYearsAreNotRead | backend/internal/agent/lifespan.go:261-272 | an instant outside those years is written in a form that cannot be read |
| TimestampGrammar.ReadsExactly | backend/internal/agent/lifespan.go:261-268 | exactly the texts of a grammar are read, as the instants named by a table of months, the clock, the fraction filled up to nine digits and the offset |
| Calendar.DatesOfTheYear | backend/internal/agent/lifespan.go:264-268 | the dates of every year by the lengths of the twelve months |
| Calendar.MonthBegins | backend/internal/agent/lifespan.go:264-268 | the day on which each month of every year begins, by the cumulative days |
| Calendar.LeapYears | backend/internal/agent/lifespan.go:264-268 | which of every 400 years are leap years |
| Calendar.YearsFollow | backend/internal/agent/lifespan.go:264-268 | each year begins 365 or 366 days after the one before, the first on day 0 |
| Lifespans.UnboundedIsGreatest | backend/internal/agent/lifespan.go:67-73 | unbounded ends after every other end and nothing ends after it |
| Lifespans.OrderIsTotal | backend/internal/agent/lifespan.go:62-73 | of two ends the service builds exactly one is later, or they are equal |
| Lifespans.OrderIsTransitive | backend/internal/agent/lifespan.go:67-73 | later than later is later |
| Lifespans.RevivalIsAnExtension | backend/internal/agent/lifespan.go:200-206 | a change from expired to not expired ends later |
| Lifespans.EndOfInstant | backend/internal/agent/lifespan.go:269-276 | a negative year is refused, the reserved timestamp and everything past it never end, everything else is kept to the second |
| Lifespans.ReservedTimestamp | backend/internal/agent/lifespan.go:39-40 | the reserved text is the written form of the last second of year 9999 |
| Lifespans.TextRoundTripsExactly | backend/internal/agent/lifespan.go:54-60 | parsing the stored form gives the same end exactly for unbounded ends and for ends from year 0 to before the reserved timestamp |
| Lifespans.AcceptedRoundTrips | backend/internal/agent/lifespan.go:264-277 | for every accepted input, parsing its stored form gives the same end |
| Lifespans.UnboundedExactly | backend/internal/agent/lifespan.go:273-275 | an accepted input never ends exactly if it names the reserved instant or a later one |
| Lifespans.StoredFormIsTheSecond | backend/internal/agent/lifespan.go:48-60 | two accepted inputs are stored alike exactly if they name the same UTC second, however written, or are both at or past the reserved timestamp |
| LifespanUpdates.StoredReadsBack | backend/internal/agent/lifespan.go:350-360 | every storable end is read back from its stored form |
| LifespanUpdates.NextIsStorable | backend/internal/agent/lifespan.go:312-325 | whatever an update asks for, null included, the end it would store reads back |
| LifespanUpdates.ChangeIsClassified | backend/internal/agent/lifespan.go:193-211 | a change between readable ends is published as exactly one of extended and reduced, by the order, and as a reactivation exactly when an expired agent comes back |
| LifespanUpdates.UnreadableIsSet | backend/internal/agent/lifespan.go:184-192 | a change from a value that cannot be read is published as the lifespan being set |
| AgentLifespans.EventsTellTheUpdate | backend/internal/agent/lifespan.go:96-216 | every event of an update carries the end stored before it and on success the end stored after it; a success is published exactly when the stored end changed; a failure leaves every agent as it was; other agents never change |
| AgentLifespanRules.ChangesExactly | backend/internal/agent/service.go:489-615 | an update changes the stored end exactly if nothing refuses it early, the agent is not read-only, access and preparation are granted, no write fails, and the end asked for differs from the stored one and is unbounded, later than now or restored; it then is the end asked for |
| AgentLifespanRules.NullLiftsTheBound | backend/internal/agent/lifespan.go:312-325 | null that commits leaves a lifespan that never ends |
| AgentLifespanRules.CommitsExactly | backend/internal/agent/service.go:514-616 | an update commits exactly if the agent is not read-only, access and preparation are granted, no write it makes fails, and the end it asks for, if it asks for a change, may be given |
| AgentLifespanRules.FailuresInOrder | backend/internal/agent/service.go:489-615 | a failure of a class is published, alone and with the end stored and the end asked for, exactly for an update that reached the agent, asked for a change and met a reason of that class first: read-only, access, the end itself, preparation, write |
| AgentLifespanRules.RegistersExactly | backend/internal/agent/service.go:145-249 | a registration leaves an agent exactly if it is not refused, its end may be given, the entity is stored, and the inbound client is created or the compensation fails; the end, the event and everybody else are as said |
| AgentLifespanRules.DeletesExactly | backend/internal/agent/service.go:715-774 | a delete removes exactly an agent that is not read-only when its entity is deleted, and publishes no lifespan event |
| AgentLifespanRules.StoredMeans | backend/internal/agent/lifespan.go:350-360 | absent and the reserved timestamp never end, text that cannot be read and other values have no meaning, and every other text ends at its second |
| AgentLifespans.CreateIsFaithfulExactly | backend/internal/agent/service.go:205-249 | a registration leaves the log telling the stored end exactly when it is not stuck, or the log already ended on it |
| AgentLifespans.LogRefinesStore | backend/internal/agent/lifespan.go:184-216 | over any run of registrations, updates and deletes with any failures, replaying the log gives the stored end of every agent whose registration was not stuck |
| AgentLifespans.ReportedIsStored | backend/internal/agent/lifespan.go:155-162 | the end an update reports is the one a later read finds |
| AgentLifespans.RegisteredIsStored | backend/internal/agent/lifespan.go:282-298 | a registration stores the end it was asked for |
| AgentLifespans.StuckRegistrationIsUnreported | backend/internal/agent/service.go:219-228 | a registration whose inbound client and compensation both fail leaves a lifespan no event reports |
| AgentLifespanServices.AgentLifespanService.CheckUpdate | backend/internal/agent/lifespan.go:111-124 | refuses a change that is no end, or not in the future unless restoring, and publishes the refusal |
| AgentLifespanServices.AgentLifespanService.WriteUpdate | backend/internal/agent/lifespan.go:130-151 | the lifespan is written or, on a fault anywhere in the transaction, every agent is as before |
| AgentLifespanServices.AgentLifespanService.PublishChanged | backend/internal/agent/lifespan.go:193-211 | appends the events of a committed change |
| AgentLifespanServices.AgentLifespanService.CompleteUpdate | backend/internal/agent/lifespan.go:155-162 | publishes a change and answers the agent's end |
| AgentLifespanServices.AgentLifespanService.ApplyUpdate | backend/internal/agent/service.go:514-616 | the checks in order, the write and the events; it commits exactly when no check objects |
| AgentLifespanServices.AgentLifespanService.UpdateAgent | backend/internal/agent/service.go:485-626 | the whole update: what is refused before the agent is read publishes nothing, and a failing credential write after the commit leaves the change made and published; it succeeds exactly when nothing objects, and then answers the stored end |
| AgentLifespanServices.AgentLifespanService.ResolveValidUntil | backend/internal/agent/lifespan.go:282-298 | the end of a registration: unbounded when none is asked for, refused when malformed or past unless restoring |
| AgentLifespanServices.AgentLifespanService.Register | backend/internal/agent/service.go:205-248 | entity, inbound client, compensation, and the event only at the very end |
| AgentLifespanServices.AgentLifespanService.CreateAgent | backend/internal/agent/service.go:145-249 | the whole registration |
| AgentLifespanServices.AgentLifespanService.DeleteAgent | backend/internal/agent/service.go:715-774 | only a mutable agent whose entity delete succeeds is removed, without a lifespan event |
| LifespanExport.ExportParses | backend/internal/agent/declarative_resource.go:117-121 | an exported end is never empty and parses back to itself exactly if it is storable |
| LifespanExport.RestoreRoundTrips | backend/internal/system/importer/service_adapters.go:1297-1308 | restoring an export, expired ones included, gives an equal end exactly if it is storable |
| LifespanExport.DeclarativeRoundTrips | backend/internal/agent/lifespan.go:337-346 | a declarative file made from an export loads to an equal end exactly if it is storable |
| LifespanExport.ReimportIsNoChange | backend/internal/agent/lifespan.go:98-107 | importing an export onto its own agent is no change exactly if its end is storable |
| LifespanExport.ViewAgrees | backend/internal/agent/declarative_resource.go:160-166 | viewing an export shows what reading the agent shows exactly if its end is storable |
| LifespanExport.ViewShows | backend/internal/agent/lifespan.go:364-375 | a read shows no phase for what cannot be read, unbounded without a date, active before the end and expired from it on |
| LifespanExport.OtherTextIsShown | backend/internal/agent/declarative_resource.go:160-166 | an export that names no end is shown as it is |
| LifespanExport.RunKeepsStorable | backend/internal/agent/lifespan.go:261-277 | whatever runs the service makes, every readable stored end stays storable |
| LifespanExport.UnreadableIsLostOnANewAgent | backend/internal/agent/lifespan.go:364-368 | an unreadable lifespan is exported as absent: no change on its own agent, unbounded on a new one |
| AgentListing.GetAllResourceIds | backend/internal/agent/declarative_resource.go:76-100 | reading page by page gives every agent that is not declarative, once and in order |
| AgentListing.ExportedOfOne | backend/internal/agent/declarative_resource.go:76-100 | of a listing of one agent exactly one that is not read-only is exported |
| AgentListing.ExportedSplits | backend/internal/agent/declarative_resource.go:76-100 | what is exported of two listings one after the other |
| GoLiterals.LiteralIsValid | tools/i18n-extractor/extractor.go:203-207 | a literal in well-formed source has a well-formed value unless it names a byte from 0x80 on by its number |
| GoLiterals.HexEscapeIsRead | tools/i18n-extractor/extractor.go:203-207 | every byte is read from its two hexadecimal digits, in either case |
| GoLiterals.OctalEscapeIsRead | tools/i18n-extractor/extractor.go:203-207 | every byte is read from its three octal digits |
| GoLiterals.RuneEscapeIsRead | tools/i18n-extractor/extractor.go:203-207 | a character is read from four or eight digits, and no other number is one |
| GoLiterals.LetterEscapeIsRead | tools/i18n-extractor/extractor.go:203-207 | the one-letter escapes and what they stand for |
| GoLiterals.RawLiteralIsRead | tools/i18n-extractor/extractor.go:203-207 | a raw literal means its content without carriage returns and ends at the first backquote |
| GoLiterals.LiteralsStayOnTheLine | tools/i18n-extractor/extractor.go:203-207 | no interpreted literal contains a line break |
| Utf8.WellFormedByTable | tools/i18n-extractor/extractor.go:203-207 | an encoding begins exactly where a row of the Unicode standard's table matches |
| Utf8.EncodedIsDecoded | tools/i18n-extractor/extractor.go:203-207 | every character but a surrogate comes back from its encoding |
| I18nExtractor.ValueIsTheLeaves | tools/i18n-extractor/extractor.go:196-228 | an expression has a value exactly when it is made of string literals that unquote, + and parentheses, and the value is theirs in order, however nested |
| I18nExtractor.PlainLeavesAreValid | tools/i18n-extractor/extractor.go:208-221 | plain literals concatenate to well-formed text |
| I18nExtractor.ExtractMessage | tools/i18n-extractor/extractor.go:149-189 | the last extractable value of each field wins, and a message needs both, not empty |
| I18nExtractor.FieldValueIsTheLast | tools/i18n-extractor/extractor.go:149-189 | the value of a field is that of its last element whose value can be extracted |
| I18nLiterals.PassesAreOneMap | tools/i18n-extractor/generator.go:103-110 | the five replacements over the whole string are one map over its bytes |
| I18nLiterals.EscapeString | tools/i18n-extractor/generator.go:103-110 | the five passes as they run compute that map |
| I18nLiterals.EscapingKeepsEncodings | tools/i18n-extractor/generator.go:103-110 | an encoding begins at a byte of the escaped string exactly if it did in the string |
| I18nLiterals.QuotedIsRead | tools/i18n-extractor/generator.go:125-125 | the literal written for any string unquotes, to the string with malformed bytes replaced |
| I18nLiterals.QuotedMeansTheSame | tools/i18n-extractor/generator.go:125-125 | the literal unquotes to the string it was written for exactly when that is well-formed UTF-8 |
| I18nLiterals.NothingFollowsTheQuote | tools/i18n-extractor/generator.go:125-125 | with anything after the closing quote it is no literal |
| I18nLiterals.RepairIsFinal | tools/i18n-extractor/generator.go:102-127 | whatever was written and read once is written and read without change from then on |
| I18nGenerator.GroupByKey | tools/i18n-extractor/generator.go:32-35 | the loop computes the grouping of the messages by key |
| I18nGenerator.RepeatedKeys | tools/i18n-extractor/generator.go:38-47 | walking the map in any order finds exactly the keys with several messages |
| I18nGenerator.Generate | tools/i18n-extractor/generator.go:31-78 | succeeds exactly when all keys differ, with strictly sorted entries that are exactly the messages; otherwise names exactly the repeated keys |
| I18nGenerator.SortedIsUnique | tools/i18n-extractor/generator.go:53-72 | strictly sorted entries with the same messages are the same entries |
| I18nGenerator.LessExactly | tools/i18n-extractor/generator.go:53-54 | the order is ascending: by the first different byte, a prefix first |
| I18nGenerator.OutputIsUnique | tools/i18n-extractor/generator.go:31-78 | any two outputs for the same messages in any order, walking maps in any order, agree |
| I18nDefaults.EntryIsRead | tools/i18n-extractor/generator.go:124-126 | a rendered entry reads back as its key and value, repaired, with the rest of the file after it |
| I18nDefaults.EntryBytes | tools/i18n-extractor/generator.go:123-127 | the bytes of an entry and of the end of the map |
| I18nDefaults.FileIsRead | tools/i18n-extractor/generator.go:123-127 | the rendered map literal reads back as all its entries, repaired |
| I18nDefaults.FileMeansItsMessages | tools/i18n-extractor/generator.go:31-127 | the generated map reads back as exactly the messages, sorted, exactly when all are well-formed UTF-8 |
| I18nDefaults.FileIsSourceTextExactly | tools/i18n-extractor/generator.go:102-127 | compilers accept the characters of the generated map exactly if those of every message are UTF-8 without NUL and byte order mark |
| I18nDefaults.SourceTextExactly | tools/i18n-extractor/generator.go:102-127 | the text compilers accept is well-formed UTF-8 with no zero byte and no byte order mark anywhere |
| I18nDefaults.AcceptedFileMeansItsMessages | tools/i18n-extractor/generator.go:31-127 | a generated map whose characters compilers accept reads back as exactly its messages |
| I18nDefaults.ExpressionsKeepTheirMeaning | tools/i18n-extractor/extractor.go:196-228 | for every nesting of + and parentheses over literals, the literal written unquotes to the concatenation of the unquoted leaves exactly when that is well-formed UTF-8, as it is for plain literals |
| I18nDefaults.NamedByteIsLost | tools/i18n-extractor/generator.go:103-110 | a literal of one byte named by its number is extracted, does not come back, and no compiler accepts the text written for it |
| ContactValues.CanonicalIsIdempotent | backend/internal/entitytype/model/schema.go:167-178 | the canonical form of a contact is its own canonical form |
| ContactValues.SameEmailExactly | backend/internal/entitytype/model/schema.go:167-178 | two addresses are the same exactly if, trimmed, they are equal or have the same local part and domains that differ in the case of letters only |
| ContactValues.CanonicalAddress | backend/internal/entitytype/model/schema.go:167-178 | the canonical form keeps the local part and has the domain in lower case |
| ContactValues.OtherTextsStay | backend/internal/entitytype/model/schema.go:167-178 | a text without an @ is only trimmed, and other kinds of contact are not changed |
| GoText.SpacesByCodePoint | backend/internal/entitytype/model/schema.go:172-172 | the characters that are trimmed, by code point |
| GoText.TrimmedEnds | backend/internal/entitytype/model/schema.go:172-172 | trimming takes white space from the ends and nothing else |
| AttributeVerification.RecordedIsPinnedAndCurrent | backend/internal/entity/service.go:2100-2143 | in any state a verification is recorded only by a record call whose pinned value is, at that write, the canonical stored value of a user, still one and still of the type read, and with its verified event |
| AttributeVerification.VerifiedIsRecorded | backend/internal/attributeverification/service.go:99-113 | a call publishes a verified event exactly when it has recorded its pin |
| AttributeVerification.OutcomeIsPublished | backend/internal/attributeverification/service.go:99-114 | a step publishes a verified or a refused event exactly when the call ends so, and nothing otherwise |
| AttributeVerification.ServerErrorsExactly | backend/internal/attributeverification/service.go:84-114 | a call ends in a server error exactly when a store call fails or the type it has read is gone |
| AttributeVerification.CallTouchesItsMarkOnly | backend/internal/entity/service.go:2120-2132 | a call changes nothing but the one verification it records |
| AttributeVerification.RunReports | backend/internal/attributeverification/service.go:84-114 | in every interleaving each record call publishes exactly one verified or refused event, or none when it ends in a server error |
| VerificationMarks.RunKeepsMarks | backend/internal/entity/service.go:2288-2390 | every recorded verification is about the value its user holds now, in any interleaving of record calls, updates that read the schema before they lock, type changes, deletions and harmless schema changes |
| VerificationMarks.WriteKeepsMarks | backend/internal/entity/service.go:2258-2390 | an update invalidates exactly enough by the schema it read before the lock, unless an attribute it took for an email no longer is one and its user has, or may yet get, a verification of a different text that is the same email |
| VerificationMarks.OutlastsExactly | backend/internal/entity/service.go:2232-2256 | a pinned value is as good under another kind of contact exactly if no kind was known, emails stay emails or not emails, or it is its own canonical email exactly when it becomes one |
| VerificationMarks.HarmlessExactly | backend/internal/entity/service.go:2100-2143 | a schema change is harmless, by the recorded values it compares, the pins of the calls that have read the schema and the updates in progress, if and only if afterwards every verification stays current in every run without further schema changes |
| VerificationMarks.SchemaKeepsMarksExactly | backend/internal/entity/service.go:2232-2256 | a schema change keeps that exactly when no recorded value of that type compares differently afterwards |
| AttributeVerification.ContactsAgree | backend/internal/attributeverification/service.go:193-207 | the pin and the entity service agree on what kind of contact an attribute is |
| AttributeVerification.RecordIsOneStep | backend/internal/attributeverification/service.go:84-114 | the four steps of an uninterrupted call, each of which may fail, are one |
| AttributeVerification.RecordVerifiesExactlyThePrepared | backend/internal/attributeverification/service.go:61-97 | without faults and interference a record call verifies exactly the pin preparing would give now |
| AttributeVerification.VerifiedExactly | backend/internal/attributeverification/service.go:84-97 | such a call verifies exactly a pin of a user of its own, whose type has a contact of that name and channel and who holds a text that is not blank and compares as the pin; all others it refuses |
| AttributeVerification.OtherMailboxIsRefused | backend/internal/entity/service.go:2110-2112 | a user who holds an address with another local part is refused |
| AttributeVerification.PendingPinIsPrepared | backend/internal/attributeverification/service.go:63-67 | a pin prepared before its user exists is the one to record exactly if the stored value has the same canonical form |
| AttributeVerificationServices.AttributeVerificationService.PrepareContact | backend/internal/attributeverification/service.go:175-208 | the first contact of that name decides the pin; a blank value has none |
| AttributeVerificationServices.AttributeVerificationService.PrepareAttributeVerification | backend/internal/attributeverification/service.go:61-80 | pins the stored contact, publishes the request and writes nothing |
| AttributeVerificationServices.AttributeVerificationService.ReadStoredContact | backend/internal/attributeverification/service.go:138-172 | the first two reads of a call and their refusals |
| AttributeVerificationServices.AttributeVerificationService.WriteVerification | backend/internal/entity/service.go:2100-2143 | the comparison under the lock and the mark it writes |
| AttributeVerificationServices.AttributeVerificationService.RecordAttributeVerification | backend/internal/attributeverification/service.go:84-114 | the call as it runs is the uninterrupted record call of the machine |
| AppAttest.ParseAuthData | backend/internal/attestation/app_attest.go:151-184 | reads within bounds on any bytes and answers exactly on data long enough, with the flag and a complete credential ID |
| AppAttest.EncodedIsParsed | backend/internal/attestation/app_attest.go:156-183 | parsing inverts encoding, for any other flags and any trailing bytes |
| AppAttest.ParsedIsEncoded | backend/internal/attestation/app_attest.go:156-183 | what is parsed, encoded again with the flags and the trailing bytes, is the data |
| AppAttest.AcceptedExactly | backend/internal/attestation/app_attest.go:152-175 | the accepted data are exactly the encodings with the flag set |
| AppAttest.VerifyAuthData | backend/internal/attestation/app_attest.go:103-117 | the checks in order, the first that fails deciding |
| AppAttest.GenuineExactly | backend/internal/attestation/app_attest.go:108-117 | genuine data are exactly the encodings of an unused key of this app in one of the two environments |
| AppAttest.FirstMismatchDecides | backend/internal/attestation/app_attest.go:103-117 | for encoded data the first field that is not as it must be decides, in the order app, environment, sign count, key |
| AppAttest.CredentialFlag | backend/internal/attestation/app_attest.go:158-160 | the flag is set in the flags from 0x40 to 0x7F and from 0xC0 on |
| AppAttest.NumbersAreBigEndian | backend/internal/attestation/app_attest.go:161-170 | numbers are read with the most significant byte first |
| AppAttest.EnvironmentTexts | backend/internal/attestation/app_attest.go:108-117 | the identifiers of the two environments as texts |
| GrantTypes.Agent.ResolveGrantTypes | backend/internal/agent/delegation.go:32-76 | resolution step by step on copies, leaving the caller's entries and configuration objects as they were |
| GrantTypes.Agent.ApplyGrantTypes | backend/internal/agent/delegation.go:15-22 | the configuration is assigned exactly when resolution succeeds and unchanged otherwise |
| GrantTypes.ResolveIsIdempotent | backend/internal/agent/delegation.go:32-76 | resolving again changes nothing |
| GrantTypes.ResolveKeepsTheRest | backend/internal/agent/delegation.go:40-75 | every other entry stays, every requested grant stays in place, and only response types and PKCE may be set besides |
| GrantTypes.ResolveFailsExactly | backend/internal/agent/delegation.go:55-71 | fails exactly for a delegated agent that asks for more than client credentials and for nothing that acts for a user |
| GrantTypes.ResolvedExactly | backend/internal/agent/delegation.go:48-72 | client credentials come first for a confidential client that does not name them; a delegated agent that names nothing else gets authorization code and refresh token at the end, the code response type where it names none, and PKCE |
| GrantTypes.ResolvedEntries | backend/internal/agent/delegation.go:32-76 | the first OAuth entry is resolved in place, and without one exactly a delegated agent gets one at the end |
| GrantTypes.BuiltFromTheEntry | backend/internal/agent/service.go:1970-1988 | the profile of the one OAuth entry, with basic authentication and client credentials where it names nothing |
| GrantTypes.PickOAuthConfig | backend/internal/agent/service.go:1771-1789 | answers the one OAuth configuration, and is ambiguous exactly when there are several entries |
| GrantTypes.DelegatedProfileActs | backend/internal/agent/service.go:1414-1437 | a delegated agent is stored only with a grant that acts for a user |
| GrantTypes.DelegatedIsBuiltToAct | backend/internal/agent/service.go:1970-1987 | the profile built for a delegated agent with at most one OAuth entry exists and acts for a user, before any rule is applied |
| GrantTypes.StoredHoldsClientCredentialsExactly | backend/internal/inboundclient/service.go:1425-1464 | a stored profile holds client credentials if and only if its client is not public, and its client is public if and only if the request's is |
| GrantTypes.PublicIsBuiltWithClientCredentialsExactly | backend/internal/agent/service.go:1979-1988 | a public client's request is built with client credentials exactly if it names them, or names nothing and is not delegated |
| GrantTypes.PublicIsStoredExactly | backend/internal/inboundclient/service.go:1045-1080 | exactly which resolved requests of public clients are stored: those that meet the other rules, name no client credentials, and name another grant or are delegated |
| GrantTypes.RefusedExactly | backend/internal/inboundclient/service.go:1372-1518 | each way a profile can be refused; whatever shows none of them is accepted |
| PasskeyOrigins.CorsConfig.SyncPasskeyOrigins | backend/internal/application/service.go:2873-2938 | merges the origins, leaves the configuration alone when reading or writing fails, and writes only when something is new |
| PasskeyOrigins.CorsConfig.AddOrigins | backend/internal/application/service.go:2903-2921 | the loop computes the merge and reports whether it added anything |
| PasskeyOrigins.MergedAddsTheWanted | backend/internal/application/service.go:2870-2872 | all existing items stay as a prefix, and the literals are the old ones and the acceptable new ones |
| PasskeyOrigins.WantedExactly | backend/internal/application/service.go:2904-2914 | exactly the trimmed origins that are not empty, name no wildcard, are not null and parse |
| PasskeyOrigins.AddedOnce | backend/internal/application/service.go:2904-2920 | what is added are literals only, each new and each once |
| PasskeyOrigins.MergingAgainAddsNothing | backend/internal/application/service.go:2914-2925 | a second merge adds nothing |
| PasskeyOrigins.OrderDoesNotMatter | backend/internal/application/service.go:2870-2872 | in whatever order applications are saved the same literals are allowed |

## Assumptions

- What deletion promises is stated for runs in which only deletes and regenerations overlap with a delete of the same
  application (`OverlapIsSafeExactly` says why), what is stated of stored secrets for runs in which shares may too and
  at most two updates of one application are in progress at a time (`SecretsAreSafeExactly` says why), and what is
  stated of a rotation for runs in which nobody else changes its application's client id. Agents' client ids and the
  lifespan of one agent change sequentially, since reading and writing them is not one transaction.
- A store call is atomic unless it is a cascade or the removal of localized keys. Compensation, flows and the removal
  of each layer are calls of their own.
- Generated ids and client ids are fresh, generated secrets are not blank, and for `ClientIdsStayUnique` client ids and
  entity ids are disjoint.
- A token is issued in one step to a client whose entity and inbound client are both there, and stays in the set of
  tokens ever issued; it is revoked when its issue time is at or before the cutoff of its client id
  (`backend/internal/oauth/oauth2/revocation/store_constants.go:52-64` and `:77-98`). Comparing a hashed secret is
  equality.
- The Go library is modelled from its own definition: the RFC 3339 layout of package time (section 5.6 of RFC 3339 with
  that package's deviations, listed in `Timestamps`), `strconv.Unquote`, `strings.TrimSpace`, `strings.ReplaceAll`,
  UTF-8 decoding. `sort.Strings` is an insertion sort, which has the same result on distinct keys.
- Events are published to an enabled log, and publishing does not fail.
- User types have names, and the attribute names of one are distinct, where a lemma says so.

## Left out

- ContactValues.CanonicalIsIdempotent: lowers ASCII letters only, where the original lowers every Unicode letter of a
  domain.
- PasskeyOrigins.CorsConfig.SyncPasskeyOrigins: the CORS origin parser is a parameter, and JSON encoding of items is the
  identity.
- ApplicationRotation.RotationRevokes: speaks of successful rotations; a rotation whose second flow fails is the known
  limitation the source records, and only its soundness invariants are covered.
- AgentLifespanServices.AgentLifespanService.UpdateAgent: the inbound client written before the transaction, which is
  not atomic with it, is not modelled.
- GrantTypes.PublicIsStoredExactly: deployment allow-lists, the form of URIs and certificates, token settings and client
  metadata documents are one verdict, `otherRules`.
- AttributeVerification.RunReports: takes the write and its event as one step; a process that dies between them is not
  modelled there.
- Flow secrets, certificates, attestation credentials and client id metadata documents of applications.
- Names, organization units, projects, owners and schema validation: each is a refusal before anything is written and
  appears as one refusal.
- Declared sharing policies, and the update and deletion of single policies.
- Removal of stale localized keys by an application update.
- Expiry of tokens and of revocation records, and session revocation.
- HTTP handlers, error translation, field-by-field copying of responses, logging and audit, except the lifespan,
  verification and application events.
- Cryptography, CBOR, base64 and certificate chains: hashes and chain verdicts are inputs.
- Reading Go source files: the extractor's expressions and literals are data, and which composite literals are messages
  is not modelled.
- Positions of messages in source files, which only decorate error texts.
