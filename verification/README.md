# A verified model of the ZPR visa service

The visa service decides which actors of a ZPR network may talk to each other. It admits actors
by join policies, evaluates requests against communication policies, keeps each connected actor's
attributes fresh from trusted services, and revokes actors whose authority has run out. This
project models the parts of it whose correctness is hardest to see, and proves what they promise.
`dafny verify dfyconfig.toml` checks everything.

- **Evaluation** (`Evaluator`, `VisaPolicy`). Deny pass, allow pass, direction inference over port
  scopes, visa ports. A request is allowed exactly when no deny policy fires and some allow policy
  does; time never grants; a reply is decided as the mirror image of its request; a visa with a
  widened client port covers only packets the same hit allows.
- **Admission** (`JoinPolicies`, `Policies`, `Actors`, `Connections`). What `approve_connection`
  builds, `approve_connected` still approves and a refresh does not restamp; a requested address is
  a check and never a grant; every admitted actor has a well-formed identity and a definite
  authentication expiration.
- **Attribute refresh** (`Refresh`, `RefreshOrder`, `TrustedServices`, `RefreshActor`,
  `RefreshProtocol`, `RefreshRuns`). One pass as the code runs it, its independence of hash-set
  order, and the protocol around it, in which notifications, flushes, installs, failed queries,
  failed writes and replacements of the stored record land anywhere. No run of careful steps loses
  an invalidation, and for each kind of step that is not careful it is stated what it loses.
- **Docking and sweeps** (`Docking`, `Sweeps`, `Teardown`, `ReauthSweep`, `DenylistSweep`,
  `ExpirySweep`). The docking table agrees with the persisted sets over every run in which two
  operations find what they need, stated exactly; the startup cull survives restarts; and the
  three sweeps put out only whom their log shows as seen, acknowledged and re-checked, whatever
  else happens, and exactly the right actors when nothing else does.
- **Indexes** (`DenyLog`, `Links`, `Network`). The bounded deny window is a function of the whole
  history, the link index agrees with the peering list, and the network report classifies every
  node pair.

The clock is an argument `now`. An IP address is a number under its order, and address parsing and
the actor hash are function parameters. An attribute key the code names has a constructor of its
own; any other key is `Other`. An object whose methods change it is a class whose methods are
proved equal to a function on its value; loops are methods proved against the function they
compute. In the sweeps everything may change at every await: the store is havocked, calls fail,
acknowledgements are short. What a pass reads and does goes into a log, and its laws are stated
over that log alone. The flag `calm` singles out the runs in which nothing else happens.

## Where the code falls short of the plain statement

Each of these is stated exactly, with a condition that can be looked up before the call, and with a
concrete input or run on which it fails.

- The re-check of a freshly admitted actor succeeds exactly if the join policies its claims match
  together with its own stamps bear out what the claims alone were granted (`RecheckExactly`). An
  actor with nothing to rest an identity on is stamped with a hash, and a join policy that asks for
  it then matches only after admission (`HashExactly`, `RecheckCanRejectOnActorHash`). In the same
  way a restamp leaves the actor alone exactly if what it then matches earns it the same services
  (`RefreshExactly`, `RefreshCanRestamp`).
- A vended attribute that the actor refuses (an unknown role, an unparsable address) leaves the
  source's older attribute in place while the new revision is recorded. An answer replaces what the
  source held exactly unless this happens (`AnswerReplacesExactly`, `AnswerIsYoungExactly`,
  `RefusedRunLosesAnInvalidation`).
- An answer may rename the actor. The pass is then written and committed at the new address, on
  generations read at the old one: it leaves the old address's books alone, and loses an
  invalidation at the new one exactly if what it writes is older than a source recorded there as
  current, or a generation matches by chance (`ReplacementLosesExactly`,
  `ReplacedRunLosesAnInvalidation`, `ForeignCommitLosesExactly`, `ForeignRunLosesAnInvalidation`).
- A disconnect forgets the generations a pass in flight has planned on. While the pass commits, some
  careful continuation then loses an invalidation exactly if, for a queued revision still served,
  the reconnected record holds something from the source and the planned generation was not 0, or
  was 0 and the record is too old (`ForgettingLosesExactly`, `ForgottenRunLosesAnInvalidation`).
- The order in which sources are visited never changes attributes, revisions or the report. It
  changes the identity keys exactly when an identity key passes from one refreshed source to
  another (`IdentityAgreesExactly`, `IdentityCanDependOnOrder`).
- `set_services` with no service leaves an identity key dangling exactly when the services
  attribute is an identity key (`IdentityPresentExactly`, `ClearedServicesCanDangle`).
- For a client that also provides services, a hit survives a change of client port exactly if no
  deny policy fires on the new packet and, for a hit on a reply, its policy does not read the new
  packet as a request instead (`WideningSurvivesExactly`). Both failures occur
  (`WideningCanOverCover`, `WideningCanLoseAReply`).
- After a restart the docking index agrees exactly if no node without a record holds an adapter and
  each adapter at a live node has a record and is at no other live node (`RestartAgreesExactly`,
  `RestartCanDisagree`). When a node awaiting its cull reconnects, it agrees exactly if the node's
  adapters are mapped to it (`ResumeAgreesExactly`, `ResumeCanDisagree`).
- `NEVER_EXPIRES` is commented as 100 years; the code multiplies by 60 once more than that. The
  model has the code's value (libeval/src/attribute.rs:12).

## Model

| member | source | states |
|---|---|---|
| `Evaluator.ConditionReadings` | libeval/src/eval.rs:535-644 | a condition is read three ways (holds, fails, malformed); an allow needs it to hold on an unexpired value, a deny needs only that it not fail |
| `Evaluator.MatchPolicies` | libeval/src/eval.rs:430-496 | the loop over the policies collects exactly the hits of one pass |
| `Evaluator.HitsAreFirings` | libeval/src/eval.rs:430-496 | a hit is in the list if and only if its policy fires on the request |
| `Evaluator.HitsAscend` | libeval/src/eval.rs:430-496 | hits come in policy order, each policy at most once |
| `Evaluator.NoHitsMeansNoneFires` | libeval/src/eval.rs:430-496 | there are hits exactly if some policy fires |
| `Evaluator.AllowExactly` | libeval/src/eval.rs:78-122 | a request is allowed iff no deny policy fires and some allow policy does; denied by policy iff some deny policy fires |
| `Evaluator.AllowReadingImpliesDenyReading` | libeval/src/eval.rs:504-644 | a policy that fires read as an allow fires, in the same direction, read as a deny |
| `Evaluator.FiringOverTime` | libeval/src/eval.rs:535-644 | waiting changes no deny firing and creates no allow firing |
| `Evaluator.DenyHitsTimeless` | libeval/src/eval.rs:430-644 | deny hits are the same at every time |
| `Evaluator.TimeNeverGrants` | libeval/src/eval.rs:78-122 | an allow later is an allow earlier, with at least the same hits |
| `Evaluator.VisaCoversExactly` | libeval/src/eval.rs:124-201 | a visa covers exactly its packet, and every other client port iff the client port was 0 or above 1023 |
| `Evaluator.HitsIgnoreClientPort` | libeval/src/eval.rs:684-724 | if the client provides no service the policy names, no hit of either pass depends on its port |
| `Evaluator.DecisionIgnoresClientPort` | libeval/src/eval.rs:78-122 | the whole decision is blind to the port of an actor that can only be a client |
| `Evaluator.WidenedVisaIsSound` | libeval/src/eval.rs:148-175 | every packet a granted visa covers is decided as the request was, by the same hits |
| `Evaluator.WideningSurvivesExactly` | libeval/src/eval.rs:148-175 | without that restriction, a hit of either direction survives another client port iff no deny policy fires on it and, for a reply, its policy does not read the packet as a request |
| `Evaluator.WideningCanOverCover` | libeval/src/eval.rs:148-175 | a client that also serves can get a visa covering a denied packet |
| `Evaluator.WideningCanLoseAReply` | libeval/src/eval.rs:148-175 | a reply's visa can cover a packet that matches nothing although no deny policy fires |
| `Evaluator.ReplyFiring` | libeval/src/eval.rs:684-724 | a policy fires in reverse on the reply iff it fired forward on the request through a scope that is not one-way |
| `Evaluator.ReplyMirrorsExactly` | libeval/src/eval.rs:430-496 | the reply's hits are the request's with the direction flipped, iff every firing policy is answerable |
| `Evaluator.NoOneWayIsAnswerable` | libeval/src/eval.rs:684-724 | TCP, and UDP without one-way scopes, is always answerable |
| `Evaluator.ReplyDecisionMirrors` | libeval/src/eval.rs:78-201 | a reply gets its request's decision, hit for hit, and mirror-image visas |
| `VisaPolicy.DecisionExactly` | vs/src/visa_policy.rs:78-159 | what each answer and each deny code says about authentication, docking, routing and the policies that fired |
| `VisaPolicy.AllowAlwaysHasRoute` | vs/src/visa_policy.rs:127-176 | route selection never fails on an allow, and picks the best route between the resolved docking nodes |
| `VisaPolicy.TimeNeverGrantsAVisa` | vs/src/visa_policy.rs:78-159 | with everything else fixed, an allow later is an allow earlier between the same docks with at least the same hits |
| `VisaPolicy.AaaTable.Register` | vs/src/actor_mgr.rs:498-500 | every later lookup of the address finds its docking node until the expiry and not after, and every other lookup is as before |
| `VisaPolicy.AaaTable.Lookup` | vs/src/actor_mgr.rs:509-524 | finds an unexpired entry; dropping an expired one changes no lookup now or later |
| `JoinPolicies.CountMapsAgree` | libeval/src/joinpolicy.rs:89-105 | equal count maps are equal multisets |
| `JoinPolicies.ContainsExactly` | libeval/src/joinpolicy.rs:89-105 | decides multiset equality of the values |
| `JoinPolicies.DecideExpression` | libeval/src/joinpolicy.rs:124-186 | the inner loop with its found flag decides the meaning of one expression |
| `JoinPolicies.DecideMatch` | libeval/src/joinpolicy.rs:124-186 | the nested loops decide that every expression is satisfied by the claims, whatever their order |
| `JoinPolicies.MatchFadesWithTime` | libeval/src/joinpolicy.rs:124-186 | waiting never makes a policy match |
| `JoinPolicies.MatchReadsOnlyNamedKeys` | libeval/src/joinpolicy.rs:124-186 | only claims under keys the policy names can matter |
| `Policies.MatchJoinPolicies` | libeval/src/policy.rs:189-198 | collects the matching join policies in policy order |
| `Policies.RoleGrantIsConnectGrant` | libeval/src/policy.rs:205-237 | for the role connect would assign, the refresh grant equals the connect grant |
| `Policies.RoleGrantIsBounded` | libeval/src/policy.rs:224-237 | a role never widens a grant, and an adapter gets no service only node policies grant |
| `Policies.GrantsFadeWithTime` | libeval/src/policy.rs:224-237 | matched policies and services for a role only shrink with time |
| `Policies.MatchingReadsOnlyNamedKeys` | libeval/src/policy.rs:189-198 | claims no join expression names do not change what matches |
| `Policies.ResolveIdentityAttrKeys` | libeval/src/policy.rs:630-658 | the identity keys are distinct and a function of the service table, not of its hash order |
| `Policies.DedupKeepsMembers` | libeval/src/policy.rs:630-658 | nothing declared is lost by dropping repeats |
| `Policies.DedupKeepsFirstOrder` | libeval/src/policy.rs:630-658 | a key keeps the place of its first declaration |
| `Policies.LookupKeysDistinct` | libeval/src/policy.rs:344-353 | the lookup keys are the CN and the policy's identity keys, each once |
| `Policies.ListLookupIdentityKeys` | libeval/src/policy.rs:344-353 | lists the CN first and then the policy's keys in policy order |
| `Text.SortSet` | libeval/src/policy.rs:630-658 | sorting a collected hash set gives one sequence, whatever order it was collected in |
| `Text.SortedAscends` | libeval/src/policy.rs:630-658 | that sequence is ascending in byte order and holds exactly the set |
| `Text.U64RoundTrip` | vs/src/auth_sweep.rs:537-543 | a generation printed in decimal parses back to itself |
| `Actors.AddressCacheAgrees` | libeval/src/actor.rs:100-138 | through any sequence of operations the cached address is what the stored attribute parses to |
| `Actors.IdentityPresentExactly` | libeval/src/actor.rs:72-138 | an operation keeps every identity key present iff it does not clear services that are an identity key |
| `Actors.ClearedServicesCanDangle` | libeval/src/actor.rs:231-243 | an actor whose identity rests on its services loses the attribute and keeps the key |
| `Actors.ServicesRoundTrip` | libeval/src/actor.rs:231-250 | reading back the services gives the set that was stored |
| `Actors.EarliestIsMinimum` | libeval/src/actor.rs:184-194 | the authentication expiration is the minimum over the present authorities and identity attributes, and absent iff none is present |
| `Actors.GateIsFirst` | libeval/src/actor.rs:184-194 | the gate is the first credential with that expiration |
| `Actors.ActorRecord.AddAttribute` | libeval/src/actor.rs:100-126 | sets an accepted attribute and the address cache; a refused one changes nothing |
| `Actors.ActorRecord.RemoveAttribute` | libeval/src/actor.rs:131-138 | removes the attribute, its identity key and, for the address, the cache |
| `Actors.ActorRecord.PlaceIdentityKey` | libeval/src/actor.rs:72-85 | inserts an identity key at its place, only for a present attribute |
| `Actors.ActorRecord.ReplaceServices` | libeval/src/actor.rs:231-243 | stores the services sorted, or no attribute for none |
| `Connections.ApproveConnection` | libeval/src/eval.rs:228-373 | builds step by step the actor the specification describes, and fails iff there are no authenticated claims |
| `Connections.AssignIdentity` | libeval/src/eval.rs:348-370 | the identity loop with its two last resorts |
| `Connections.StampSets` | libeval/src/eval.rs:310-346 | stamping sets role, services and generation from the matched policies |
| `Connections.StampKeeps` | libeval/src/eval.rs:310-346 | stamping touches nothing else |
| `Connections.ApprovedOrigins` | libeval/src/eval.rs:243-308 | every unstamped attribute of an admitted actor is an authenticated claim, or a pinned requested address |
| `Connections.RequestedAddressIsCheckedNotGranted` | libeval/src/eval.rs:243-308 | without an authenticated address, the actor has one only if a matched policy lists that very value, for any claim list |
| `Connections.IdentityIsWellFormed` | libeval/src/eval.rs:348-370 | identity is non-empty, distinct, present, CN first then policy order; the expiration is defined and minimal |
| `Connections.ApproveConnected` | libeval/src/eval.rs:378-428 | the re-check decides its specification for any listing of the attribute map |
| `Connections.HashExactly` | libeval/src/eval.rs:355-370 | a hash is stamped iff the actor carries no lookup key and no address, and then it is the only addition |
| `Connections.ApprovedCarriesClaims` | libeval/src/eval.rs:243-370 | under every key the admitted actor carries exactly its claims with the stamps in place |
| `Connections.ApprovedMatchesExactly` | libeval/src/eval.rs:228-428 | the admitted actor matches exactly the join policies that its claims with the stamps in place match |
| `Connections.ApprovedMatchesAsConnected` | libeval/src/eval.rs:228-428 | it matches the same join policies its claims did, if none reads a stamp or the hash of an actor that gets one |
| `Connections.ApprovedRoleAndServices` | libeval/src/eval.rs:310-346 | role, services and generation of an admitted actor are those of the matched policies |
| `Connections.RecheckExactly` | libeval/src/eval.rs:228-428 | the re-check approves a freshly admitted actor iff its own stamps do not speak against it |
| `Connections.RecheckAgreesWithConnect` | libeval/src/eval.rs:228-428 | what connect admits, the re-check approves under the same policy and time, if no join policy reads a stamp or the hash of an actor that gets one |
| `Connections.RecheckCanRejectOnActorHash` | libeval/src/eval.rs:348-428 | a policy naming the fallback hash breaks that agreement |
| `Refresh.AuthorityExactly` | vs/src/trusted_services/mod.rs:90-114 | a source gains user authority iff it vends a user and nobody else holds or asserts it, expiring with the first user attribute |
| `Refresh.RefreshExpiredAttributes` | vs/src/actor_attributes.rs:167-294 | one pass equals asking every expired or stale source once, in some order, and applying each answer |
| `Refresh.AskSources` | vs/src/actor_attributes.rs:207-292 | the loop over the source set, in whatever order it iterates |
| `Refresh.ApplyAnswer` | vs/src/actor_attributes.rs:207-292 | one answer sets what was vended, prunes the rest and queues the revision |
| `Refresh.PruneFromSource` | vs/src/actor_attributes.rs:298-310 | removing the listed attributes one by one removes exactly them, from identity keys and address cache too |
| `Refresh.ApplyPointwise` | vs/src/actor_attributes.rs:207-310 | what one answer does to each key |
| `Refresh.RestampServices` | vs/src/actor_attributes.rs:126-143 | afterwards the actor provides exactly the services its unstamped attributes earn its role |
| `Refresh.RestampIsIdempotent` | vs/src/actor_attributes.rs:126-143 | a stamp never feeds back: restamping twice is restamping once |
| `Refresh.RefreshExactly` | vs/src/actor_attributes.rs:126-143 | a freshly admitted actor is left unchanged by restamping iff what it then matches earns its role the same services |
| `Refresh.RefreshAgreesWithConnect` | vs/src/actor_attributes.rs:126-143 | it is left unchanged if no join policy reads a stamp, the hash of an actor that gets one, or a configuration id a claim carries |
| `Refresh.RefreshCanRestamp` | vs/src/actor_attributes.rs:126-143 | a service granted on the fallback hash comes only with the first restamp |
| `RefreshOrder.KeyEnds` | vs/src/actor_attributes.rs:207-310 | each key ends with its one writer's value, or with what was there unless pruned |
| `RefreshOrder.SourceOrderIsIrrelevant` | vs/src/actor_attributes.rs:183-292 | every visiting order gives the same attributes, address, change flag, revisions and unreached sources |
| `RefreshOrder.IdentityLosesWhatWent` | vs/src/actor_attributes.rs:298-310 | identity keys lose exactly the keys dropped at some point |
| `RefreshOrder.IdentityAgreesExactly` | vs/src/actor_attributes.rs:207-310 | all orders agree on the identity keys iff no identity key is contested between sources |
| `RefreshOrder.IdentityCanDependOnOrder` | vs/src/actor_attributes.rs:207-310 | two sources that pass one identity key between them leave different identities in the two orders |
| `RefreshOrder.AuthorityStaysOrGoes` | vs/src/actor_attributes.rs:229-247 | the final user authority is the one the pass began with, or none; no decorating source takes it over |
| `RefreshOrder.ChangedMeans` | vs/src/actor_attributes.rs:207-292 | the actor counts as changed iff some answer set or dropped something |
| `TrustedServices.InvalidationWins` | vs/src/trusted_services/manager.rs:114-155 | a commit planned before a notification is dropped by it |
| `TrustedServices.CommitAllRecords` | vs/src/actor_attributes.rs:53-63 | a batch of commits records a source's entry iff its generation stands, and touches no other source |
| `TrustedServices.TrustedServicesMgr.StaleSourcesForActor` | vs/src/trusted_services/manager.rs:65-81 | lists exactly the served sources not recorded at their present revision |
| `TrustedServices.TrustedServicesMgr.RecordRevisionAtGeneration` | vs/src/trusted_services/manager.rs:114-128 | lands iff the generation is the one observed |
| `TrustedServices.TrustedServicesMgr.CommitRevisions` | vs/src/actor_attributes.rs:53-63 | commits each queued entry on its own, for this actor only |
| `TrustedServices.TrustedServicesMgr.ForgetSourceRevision` | vs/src/trusted_services/manager.rs:150-155 | clears one record and moves its generation on |
| `TrustedServices.TrustedServicesMgr.ForgetActorRevisions` | vs/src/trusted_services/manager.rs:132-134 | every served source is stale for the actor again, at generation 0, and every other actor's records are as before |
| `RefreshActor.RefreshAndPersistActor` | vs/src/actor_attributes.rs:80-111 | a failed write records no revision; otherwise the changed actor is stored and revisions are committed at the address it ends with, each landing there iff the planned generation stands, and nowhere else; at the same address nothing is left stale, or exactly the unreached sources are and are reported |
| `RefreshActor.WhatIsCurrentAfter` | vs/src/actor_attributes.rs:80-111 | what is recorded as current at any address a pass commits to, renamed or not |
| `RefreshActor.WhatIsStaleAfter` | vs/src/actor_attributes.rs:80-111 | after the commit the stale sources are exactly those that could not be reached |
| `RefreshProtocol.AnswerReplacesExactly` | vs/src/actor_attributes.rs:207-292 | a revision answer replaces everything the source held iff it keeps no refused key |
| `RefreshProtocol.AnswerIsYoungExactly` | vs/src/actor_attributes.rs:207-292 | after a revision answer everything the source holds comes from that query iff it keeps no refused key |
| `RefreshProtocol.AnswerRenamesExactly` | vs/src/actor_attributes.rs:207-292 | what an answer makes of the actor's address |
| `RefreshProtocol.RefusedAnswerKeepsOldAttribute` | vs/src/actor_attributes.rs:207-292 | a refused role leaves the old one in place under the new revision |
| `RefreshProtocol.OthersKeepAge` | vs/src/actor_attributes.rs:207-292 | an answer does not age another source's attributes |
| `RefreshProtocol.StaleAnswerIsYoung` | vs/src/actor_attributes.rs:207-292 | after a clean revision answer all the source's attributes come from that query or a later one |
| `RefreshProtocol.StepKeeps` | vs/src/actor_attributes.rs:80-294 | every careful step of the pass and of its surroundings keeps the protocol invariant |
| `RefreshProtocol.ReplacementLosesExactly` | vs/src/actor_attributes.rs:86-103 | replacing the record from outside loses no invalidation iff the revisions are forgotten or the new record is young enough |
| `RefreshProtocol.ForeignCommitLosesExactly` | vs/src/actor_attributes.rs:86-103 | a renamed pass's commit loses an invalidation at the new address iff its generation and revision match there and the record is too old |
| `RefreshProtocol.NoInterleavingLosesAnInvalidation` | vs/src/actor_attributes.rs:53-111 | every careful interleaving from an invariant state keeps it |
| `RefreshProtocol.EveryRunIsSafe` | vs/src/actor_attributes.rs:53-111 | after every careful run, a source recorded as current vended all its stored attributes in queries begun no earlier than its last notification or flush |
| `RefreshRuns.PassIsRefresh` | vs/src/actor_attributes.rs:167-294 | whatever happens around it, a pass that has asked all its sources has done to the loaded actor what the refresh does, in some order |
| `RefreshRuns.RefusedRunLosesAnInvalidation` | vs/src/actor_attributes.rs:53-292 | a run from an initial state in which a refused role loses a flush |
| `RefreshRuns.ReplacedRunLosesAnInvalidation` | vs/src/actor_attributes.rs:86-103 | a run in which a record written from elsewhere loses a flush |
| `RefreshRuns.ForeignRunLosesAnInvalidation` | vs/src/actor_attributes.rs:86-103 | a run in which a commit from elsewhere loses a flush |
| `RefreshRuns.CommitsSafeExactly` | vs/src/actor_attributes.rs:53-63 | while a pass commits, no careful run loses an invalidation iff every queued entry is sound |
| `RefreshRuns.ForgettingLosesExactly` | vs/src/trusted_services/manager.rs:114-155 | after a disconnect and reconnect under a pass that commits, no careful continuation loses an invalidation iff every queued revision still served was planned on generation 0 and is not contradicted by an older record |
| `RefreshRuns.ForgottenRunLosesAnInvalidation` | vs/src/trusted_services/manager.rs:114-155 | a run to a pass planned on generation 1 whose reconnect has a losing continuation |
| `DenyLog.RecordRefinesHistory` | vs/src/deny_log.rs:68-104 | recording on the window is appending to the history: the window holds the most recently denied distinct keys, oldest first |
| `DenyLog.WindowShape` | vs/src/deny_log.rs:68-104 | at most the limit, one entry per key |
| `DenyLog.LastOccurrencesDistinct` | vs/src/deny_log.rs:68-104 | every key ever denied appears once, at its last occurrence |
| `DenyLog.CountsAreConserved` | vs/src/deny_log.rs:68-104 | live counts plus evicted counts equal the number of denials |
| `DenyLog.ReadingMissesNothing` | vs/src/deny_log.rs:108-117 | the time filter keeps exactly the entries since the given time, even if clocks rolled back |
| `DenyLog.Log.RecordAtMs` | vs/src/deny_log.rs:68-104 | the deque with its eviction loop stays the window of the whole history |
| `DenyLog.Log.Recent` | vs/src/deny_log.rs:108-117 | reads the limit-prefix of the newest-first entries since a time |
| `Links.LoadPeerTable` | libeval/src/policy.rs:452-484 | the table lists for each node its peerings in order, from its own side |
| `Links.FirstJoiningIsFirst` | libeval/src/policy.rs:426-449 | the peering found joins the nodes and no earlier one does |
| `Links.IndexFindsFirst` | libeval/src/policy.rs:426-449 | a lookup in the table finds the first peering of the list, and finds one iff there is one |
| `Links.CostIsAtLeastOne` | libeval/src/policy.rs:504-521 | a link cost is a positive 32-bit number |
| `Links.DescriptionAgreesWithPeerings` | libeval/src/policy.rs:426-521 | a link is described iff some peering joins the nodes, by the first one, the same from both ends, at cost at least 1 |
| `Network.AddNodeLinks` | vs/src/admin_service.rs:1456-1494 | one node's peers add exactly their new pairs |
| `Network.NewPairIsFirstLink` | vs/src/admin_service.rs:1456-1494 | the entry's link is the one the link index describes |
| `Network.DeclaredTopology` | vs/src/admin_service.rs:1449-1494 | the declared half holds exactly the declared pairs, once, whatever the table's order |
| `Network.Report` | vs/src/admin_service.rs:1512-1531 | one reported pair goes up if declared, else is present as invalid |
| `Network.MarkedIsClassified` | vs/src/admin_service.rs:1508-1532 | marking all reports amounts to the classification |
| `Network.GetNetwork` | vs/src/admin_service.rs:1449-1534 | every declared or reported pair appears once: up iff both, down iff only declared, invalid iff only reported |
| `Docking.ActorMgr.RefreshState` | vs/src/actor_mgr.rs:106-170 | reports exactly the stale nodes with their adapters, maps the others' adapters, deletes nothing but VSS sockets |
| `Docking.ActorMgr.Node` | vs/src/actor_mgr.rs:186-233 | connects or reconnects a node, in the code's order of writes |
| `Docking.ActorMgr.RemoveNodeState` | vs/src/actor_mgr.rs:268-285 | drops the node's state and every mapping to it |
| `Docking.ActorMgr.AddAdapterViaNode` | vs/src/actor_mgr.rs:320-365 | docks an adapter in store and table, refusing nodes, missing and taken addresses |
| `Docking.ActorMgr.RemoveActorByZprAddr` | vs/src/actor_mgr.rs:437-451 | removes the record, the mapping and the membership |
| `Docking.ActorMgr.Update` | vs/src/actor_mgr.rs:238-247 | writes only an existing record of the same role |
| `Docking.ActorMgr.CompleteCull` | vs/src/actor_mgr.rs:180-184 | completes a cull in two deletions |
| `Docking.ConnectAndDockedAdapters` | vs/src/actor_mgr.rs:186-233 | a fresh connect starts with nobody docked, a reconnect keeps who is there |
| `Docking.RemoveUndoesAdd` | vs/src/actor_mgr.rs:320-451 | removing an adapter undoes docking it |
| `Docking.FinishCullIsIdempotent` | vs/src/actor_mgr.rs:180-184 | completing a cull twice is completing it once |
| `Docking.StepKeepsAgreement` | vs/src/actor_mgr.rs:106-451 | every operation keeps the index in agreement, given what a reconnect and a restart must find |
| `Docking.DockingIndexAgrees` | vs/src/actor_mgr.rs:137-451 | over every run in which they find it, a docked adapter of a node not awaiting its cull has a record and is mapped to that node, so it is in one set only |
| `Docking.ResumeAgreesExactly` | vs/src/actor_mgr.rs:186-233 | when a node awaiting its cull reconnects, the index agrees iff the adapters on record at it are mapped to it |
| `Docking.ResumeCanDisagree` | vs/src/actor_mgr.rs:106-233 | a run from an empty store to a reconnect that disagrees |
| `Docking.TidyRunsAreOrderly` | vs/src/actor_mgr.rs:106-451 | in a run in which adapters dock at nodes with a record and nodes awaiting their cull are left alone, every restart and reconnect is in order |
| `Docking.RestartAgreesExactly` | vs/src/actor_mgr.rs:106-153 | in any state, the index agrees after a restart iff no node without a record holds an adapter and each adapter at a live node has a record and is at no other live node |
| `Docking.RestartCanDisagree` | vs/src/actor_mgr.rs:106-153 | a run from an empty store to a restart that disagrees |
| `Docking.CullIsMonotone` | vs/src/actor_mgr.rs:106-153 | on an unchanged store a later startup reports at least the same nodes |
| `Docking.CullIsRecoverable` | vs/src/actor_mgr.rs:106-184 | a cull survives restarts and everything short of its completion, with the same adapters on record |
| `Docking.ReportedAwaitsCull` | vs/src/actor_mgr.rs:106-170 | every node a startup reports is such a cull |
| `Sweeps.ConnectMeetsItsGeneration` | vs/src/auth_sweep.rs:537-543 | an admitted actor reads back as authenticated under the admitting policy's generation |
| `Sweeps.MaximumDecides` | vs/src/auth_sweep.rs:357-363 | one comparison with the highest overdue generation decides whether some overdue obligation is unmet |
| `Sweeps.EnlistAddsOne` | vs/src/auth_sweep.rs:185-201 | grouping by docking node neither loses nor repeats an adapter |
| `Sweeps.ReadsJustify` | vs/src/auth_sweep.rs:202-249 | a log that begins with the pass's reads and does what they sanction puts out only actors seen as targets, and adapters only after the node they were seen at acknowledged them |
| `Sweeps.Assembly.Disconnect` | vs/src/connection_control.rs:1892-1969 | in quiet times a disconnected node goes with exactly its docked adapters, the visa service's excepted |
| `Sweeps.Assembly.Cascade` | vs/src/connection_control.rs:1848-1878 | the teardown loop behind it |
| `ReauthSweep.NewestSatisfiesOlder` | vs/src/auth_sweep.rs:335-356 | satisfied obligations are downward closed |
| `ReauthSweep.PruneMet` | vs/src/auth_sweep.rs:335-356 | keeps exactly the unmet obligations and prunes exactly the met ones |
| `ReauthSweep.DisconnectNode` | vs/src/auth_sweep.rs:365-407 | a node is re-checked just before it is disconnected |
| `Teardown.Group` | vs/src/auth_sweep.rs:408-424 | the batches hold exactly the adapters to revoke whose docking node was not just lost |
| `Teardown.TearDownNode` | vs/src/connection_control.rs:1892-1969 | disconnecting one more node takes exactly it and whoever is on record at it |
| `Teardown.MarkedAreDoomed` | vs/src/auth_sweep.rs:83-261 | where every adapter is docked, nobody a sweep is after is left |
| `ReauthSweep.RemoveAdapter` | vs/src/auth_sweep.rs:451-478 | an acknowledged adapter is re-checked just before it is removed |
| `ReauthSweep.RevokeBatch` | vs/src/auth_sweep.rs:425-489 | only the processed prefix is removed, the rest is deferred |
| `ReauthSweep.ListingJustifies` | vs/src/auth_sweep.rs:357-478 | a re-check below the highest overdue unmet generation is a re-check below an obligation the pass listed as overdue |
| `ReauthSweep.SweepReauthObligations` | vs/src/auth_sweep.rs:273-490 | the log shows everyone put out as seen, re-checked just before below an obligation listed as overdue, and adapters as acknowledged by the node they were seen at; counts are bounded by the loads; in quiet times exactly the late nodes, their adapters and the other late adapters go, every overdue obligation is settled and exactly the met ones are pruned |
| `ReauthSweep.TwoPassesSettleAndPrune` | vs/src/auth_sweep.rs:273-490 | in quiet times two passes carry out and prune everything overdue at the first, and take only who was late at one of them or docked at who was |
| `DenylistSweep.Match` | vs/src/auth_sweep.rs:118-154 | every match is a load of a denylisted actor, and in quiet times the matches are exactly the denylisted actors |
| `DenylistSweep.DisconnectNodes` | vs/src/auth_sweep.rs:159-184 | in quiet times exactly the matched nodes and whoever was docked at them go |
| `DenylistSweep.RevokeBatch` | vs/src/auth_sweep.rs:202-249 | only the processed prefix is removed |
| `DenylistSweep.SweepDenylistedActors` | vs/src/auth_sweep.rs:83-261 | the log shows everyone put out as seen denylisted, and adapters as acknowledged by the node they were seen at; counts are bounded by the loads; in quiet times exactly the denied nodes, their adapters and the denied adapters with a docking node go |
| `ExpirySweep.Collect` | vs/src/auth_sweep.rs:574-605 | every sighting is a load, and in quiet times the batches hold exactly the lapsed adapters with a docking node |
| `ExpirySweep.SightingsJustify` | vs/src/auth_sweep.rs:607-671 | removals that follow sightings are removals of adapters the log shows as lapsed and answered |
| `ExpirySweep.RemoveLapsed` | vs/src/auth_sweep.rs:624-660 | an adapter renewed meanwhile stays |
| `ExpirySweep.RevokeBatch` | vs/src/auth_sweep.rs:607-671 | a batch is removed only on an answer |
| `ExpirySweep.SweepExpiredAuths` | vs/src/auth_sweep.rs:553-681 | the log shows everyone removed as seen lapsed, named in a batch its node answered, and read again with the same expiration just before; in quiet times exactly the lapsed adapters with a docking node go |

## Left out

- Policy decoding: Cap'n Proto reading, loading and version checks; the model starts from decoded policies.
- The route evaluator, which always fails; no policy needs a route in the model.
- Async runtime, TLS, HTTP, CLI and dashboard; admin types other than the network report's.
- RSA, SHA-256, base64 and API keys; the actor hash is a parameter.
- `lookup_identities` and the trusted services themselves: a source's answer is a parameter.
- Two refresh passes for one address at once.
- A renewal between a sweep's re-check and its removal, which the code does not make atomic.
- The `requestAuthentication` re-sends of the re-authentication sweep, which change no state the model has.
- Store faults inside the actor manager's operations, and its hostname and service indexes.
- Address pools, visas and topology, which a disconnect also cleans up.
- Logging, counters and configuration.
- EveryRunIsSafe: for runs whose steps are careful, that is: answers carry their source's stamp and keep no refused key, and a record replaced or committed to from outside a pass is young enough. What a careless step loses is stated one step at a time, and over all continuations only for a pass that is committing; the visa service's own stamp is not a trusted source.
- SourceOrderIsIrrelevant: identity keys are settled separately by IdentityAgreesExactly; sources stamp what they vend and vend disjoint keys.
- RecheckExactly: claims are distinct and acceptable, and a requested address is pinned.
- RefreshExactly: the same claims as RecheckExactly.
- DockingIndexAgrees: for runs in which a reconnect of a node awaiting its cull and a restart find what the two exact lemmas ask for.
- CullIsRecoverable: for operations that do not tear the node down, hear of it, or put a new actor at it or at its address.
- SweepReauthObligations: in quiet times, settlement takes every adapter but the visa service's to be docked, and the exact set of removals takes no node to be on record as docked at another.
- SweepDenylistedActors: the quiet-times clause takes no node to be on record as docked at another.
- SweepExpiredAuths: the removed adapters were in the answered batch, not necessarily in its processed prefix, because the code ignores the count.
- WidenedVisaIsSound: packets with a service-side port 0 are taken as ordinary; only the client port is a wildcard.
