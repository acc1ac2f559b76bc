# Authentication and worker protocols, verified

This project models the protocol and algebra cores behind sign-in, sessions and the background workers, and proves what
they promise over all inputs and all runs. `dafny verify dfyconfig.toml` checks it.

| file | what it models |
|---|---|
| `Sessions`, `SessionRuns`, `SessionSafety`, `SessionLimits`, `RotationRaces` | durable sessions: rotation, refresh, the two switches, reuse detection with its grace window, sticky deadlines, idle windows, the concurrent-session cap, and rotations interleaved |
| `Revocation` | the access-token deny-list and the one-second negative memo in front of it, with the Redis round-trips split open |
| `LoginFlow`, `LoginRuns`, `LoginGates`, `AuthCode`, `Memberships` | the login state machine from primary authentication to the single-use code, the pages that finalize it, and the code's redemption |
| `Policy`, `PolicyLaws`, `PolicyWrites`, `PolicyRows`, `PolicyShadow` | strictest-wins policies: composition, the write-time floor guard, the stored rows, the equivalence test |
| `IpText`, `IpRoundTrip`, `IpMatch`, `IpLaws`, `Numerals` | IPv4 and IPv6 text, CIDR matching, client-IP binding |
| `RefreshElection`, `AuthClient` | the browser tabs that elect one refresher through a shared cell, and the timers they drive it with |
| `MailboxThrottle`, `LeaderLock`, `OutboxRelay`, `RealtimeRelay` | the token bucket, the leader lock and the two at-least-once relays |
| `Fusion`, `Edges`, `EdgeRaces` | noisy-OR confidence fusion, the attestation log it summarises, and the three statements of an attestation in any interleaving |
| `Prelude` | options, results and a few notions on sequences |

How the model is set up:

- Code that updates state in place is a class whose methods are proved equal to a specification function of the old
  state (`Sessions.AuthSessions.Current`, `LoginFlow.LoginServer`, `Edges.EdgeStore.State`, `OutboxRelay.Relay`, ...).
  The theorems about runs are proved of those functions.
- A run is a list of steps at nondecreasing times, starting from the empty store unless stated otherwise. Where the
  code's steps interleave (election, deny-list, locks, relays, attestations) every storage access is a step of its own;
  a login request is one step, and a session operation one or, in `RotationRaces`, two.
- Random ids, tokens and codes are parameters that are new when drawn. Hashes and PKCE challenges are injective
  constructors. Clocks are parameters in milliseconds. Token-bucket and confidence arithmetic is over reals.
- Fields called history (`origin`, `issued`, `shown`, `won`, `marked`, `readAt`, `redeemed`, ...) exist only to state
  properties.
- A session's lineage is the login it descends from. Of `user_sessions`, the columns the decisions read are modelled.

Where code and documentation differ the model follows the code, and a lemma shows the difference:

- `policy.ts:108-111` calls the fold associative and its order irrelevant; on allowlists neither holds always, because
  disjoint lists cancel to "no restriction". `PolicyLaws.TightenAssociates` and `PolicyLaws.OrderMatters` give the exact
  conditions.
- A policy write without a value is accepted for six keys where the floor asks for nothing
  (`PolicyRows.MissingValueAccepted`), although the route means to store a value.
- The method gate lets everything through when the method list is empty, which composition can produce
  (`LoginGates.GateFollowsPolicy`, `LoginGates.DisjointMethodListsOpenTheGate`).
- The floor guard and the equivalence test compare lists by length and membership, which is right only for lists without
  repetitions (`PolicyWrites.GuardNeedsDistinctFloor`, `PolicyWrites.GuardNeedsDistinctAddresses`,
  `PolicyShadow.SameSetNeedsDistinct`).
- `ipAllowlist.ts:20` says zero-padded octets are rejected; they are accepted (`IpRoundTrip.LeadingZerosAccepted`).
  An empty `::` run is accepted and the uncompressed mixed form of section 2.2 of RFC 4291 is refused
  (`IpRoundTrip.FullFormRefusesEmbeddedV4`).
- `ipBinding.ts:74` calls the key of an IPv6 address its /64; on `::` text it is not (`IpLaws.CompressedBinds`,
  `IpLaws.TwoNetworksOneKey`).
- `refresh.ts:70-73` speaks of a sticky deadline; a switch drops it (`SessionSafety.SwitchResetsDeadline`).
- `outboxRepository.ts:49-54` says replicas claim disjoint rows; the row locks end with the claim's own transaction
  (`OutboxRelay.TwoRelaysDeliverOneRow`). `OutboxRelay.ClaimsDisjointExactly` says when claims are disjoint.
- `outboxRelay.ts:59-61` leaves a failed row to a later tick; while full batches come back the same tick claims it again,
  until its attempts are spent (`OutboxRelay.DrainFailsOutExactly`).
- `refreshElection.ts:90-107` never reads an unwritable lock as somebody else's; with a stale claim of another context in
  a store that drops writes it does, and in no other (`RefreshElection.StandDownExactly`).
- The same-process revocation of `revocation.ts:35-38` is immediate when operations are atomic, and can lose a race when
  their round-trips interleave (`Revocation.SameProcessRace`, `Revocation.SameProcessWrongExactly`).
- `flow.ts:81-90` makes the second factor a step of every login of a user who has one, and `flow.ts:202-222` refuses an
  unmarked record where the tenant mandates MFA. The selection pages finalize without asking whether the step was taken,
  and the end of an enrollment marks the record if the user has any factor (`LoginRuns.FactorShownExactly`,
  `LoginRuns.MandateShownExactly`, `LoginRuns.OrgPageDoesNotAsk`, `LoginRuns.EnrollPageDoesNotAsk`).
- `rotate()` does not look at the session again before it revokes it (`SessionSafety.DoubleRotationForks`,
  `RotationRaces.OneLiveExactly`).
- An attestation is three statements without a transaction: of two that overlap, the row can end without one
  (`EdgeRaces.LostUpdate`, `EdgeRaces.CurrentExactly`).

## Model

| member | source | states |
|---|---|---|
| `RefreshElection.TryAcquireRefreshLock` | packages/auth-client/src/refreshElection.ts:80-109 | one attempt decides and writes exactly as the pure attempt does: refused by a young foreign claim, otherwise write then reread, proceeding on a refused or vanished write |
| `RefreshElection.ReleaseRefreshLock` | packages/auth-client/src/refreshElection.ts:185-188 | an uninterrupted release removes only the tab's own claim |
| `RefreshElection.AttemptIsThreeSteps` | packages/auth-client/src/refreshElection.ts:80-109 | the interleaving model refines the code: three undisturbed steps are one attempt |
| `RefreshElection.LastWriterAlwaysHolds` | packages/auth-client/src/refreshElection.ts:99-108 | in every interleaving, once a write took effect the last writer is still to reread or has won since, and has not stood down |
| `RefreshElection.NeverAllStandDown` | packages/auth-client/src/refreshElection.ts:90-107 | from an empty or stale cell, for any tabs, attempting again while their own refresh is in flight or not, and any interleaving of reads, writes, rereads, releases and expiry without dropped writes over a claim: once an attempt is made, some tab is still to write or reread, or has won since the last effective write |
| `RefreshElection.SomebodyWins` | packages/auth-client/src/refreshElection.ts:90-107 | when every attempt of such a run has come to its end, some tab has won since the last effective write |
| `RefreshElection.StandDownExactly` | packages/auth-client/src/refreshElection.ts:90-108 | over all runs on a store, no run leaves everybody stood down if and only if the store drops no write or starts without a claim |
| `RefreshElection.DroppedWritesAllStandDown` | packages/auth-client/src/refreshElection.ts:103-108 | the failing half: over another context's stale claim, with every write dropped, nobody ever wins |
| `RefreshElection.DroppedAttempt` | packages/auth-client/src/refreshElection.ts:103-108 | a lone tab stands down over a stale claim when its write is dropped |
| `RefreshElection.RetryRefusedOnlyByNewClaim` | packages/auth-client/src/refreshElection.ts:80-85 | in one run: a tab refused at t and refused again in an attempt begun LOCK_TTL_MS later or more meets a claim stamped after t, or one whose tab wrote it a whole TTL after stamping it |
| `RefreshElection.BriskRetryRefusedOnlyByNewClaim` | packages/auth-client/src/refreshElection.ts:80-88 | if every write follows its check within a TTL, only a claim stamped after t refuses the retry |
| `RefreshElection.StalledTabRefusesRetry` | packages/auth-client/src/refreshElection.ts:80-88 | why the second half is needed: a tab stalled between check and write refuses the retry with an older stamp |
| `RefreshElection.OneTabWins` | packages/auth-client/src/refreshElection.ts:77-78 | uninterrupted attempts within one TTL are won by exactly one tab |
| `AuthClient.Client.SetToken` | packages/auth-client/src/createAuthClient.ts:131-136 | installing a token arms a timer sixty seconds before expiry, at least five seconds ahead |
| `AuthClient.Client.ScheduledRefresh` | packages/auth-client/src/createAuthClient.ts:147-172 | the timer: refresh without storage, re-arm one lock TTL ahead on a stand-down, await the shared request after a win |
| `AuthClient.Client.SilentRefresh` | packages/auth-client/src/createAuthClient.ts:208-227 | a refresh joins the request in flight instead of starting a second |
| `AuthClient.Client.RequestSettled` | packages/auth-client/src/createAuthClient.ts:172-194 | every elected refresh that awaited the request broadcasts or re-arms, then releases the lock |
| `AuthClient.Client.GetAccessToken` | packages/auth-client/src/createAuthClient.ts:204-206 | a token is handed out exactly while it is unexpired |
| `AuthClient.TokenAlwaysHasARefreshComing` | packages/auth-client/src/createAuthClient.ts:164-190 | with storage, in every run a tab holding a token has a timer armed or an elected refresh in flight |
| `AuthClient.CoastsWithoutStorage` | packages/auth-client/src/createAuthClient.ts:149-152 | without storage one failed request leaves a token with nothing armed |
| `AuthClient.CoastsExactly` | packages/auth-client/src/createAuthClient.ts:149-190 | with storage or without, over every run: a token is never left without a refresh to come if and only if no request fails that only storage-less timers awaited |
| `AuthClient.StandDownThenNewClaim` | packages/auth-client/src/createAuthClient.ts:153-170 | one run of a client and the election around it: a stand-down at t arms the timer at t + LOCK_TTL_MS, and unless a new token arrives a later attempt of this client is refused only by a claim stamped after t or written late by a stalled tab |
| `Revocation.RevocationChecker.PruneNotRevokedMemo` | packages/auth/src/revocation.ts:63-73 | at the ceiling expired entries go, and if that is not enough everything does |
| `Revocation.RevocationChecker.MarkRevoked` | packages/auth/src/revocation.ts:76-79 | the memo entry goes and the deny-list entry lives one access-token lifetime |
| `Revocation.RevocationChecker.MarkManyRevoked` | packages/auth/src/revocation.ts:89-91 | the same for every id of a batch |
| `Revocation.RevocationChecker.IsRevoked` | packages/auth/src/revocation.ts:98-112 | a live memo entry answers first, then Redis, and only negative answers are remembered |
| `Revocation.StepKeepsInvariant` | packages/auth/src/revocation.ts:76-112 | what every interleaving of split marks and checks over any number of processes keeps |
| `Revocation.MemoIsBounded` | packages/auth/src/revocation.ts:41-55 | no process ever remembers more than its maximum |
| `Revocation.FalseAnswerIsFresh` | packages/auth/src/revocation.ts:32-38 | a false answer in any interleaving comes from a lookup made no later than the mark, settled less than 1000 ms ago |
| `Revocation.AtomicAnswerIsFresh` | packages/auth/src/revocation.ts:32-38 | with operations atomic, over any number of processes, a false answer is less than 1000 ms stale |
| `Revocation.SameProcessIsExact` | packages/auth/src/revocation.ts:35-38 | with operations atomic, in every run, a process answers exactly as an unmemoised lookup about a session whose every spell on the deny-list starts with its own mark, whoever else marks it in between |
| `Revocation.OwnMarkIsExact` | packages/auth/src/revocation.ts:35-38 | with operations atomic, a process that marks a session answers revoked from then until the mark expires, whatever it or others did before or do after |
| `Revocation.WrongExactly` | packages/auth/src/revocation.ts:76-112 | split open, over any processes and runs: an answer about a deny-listed session is wrong if and only if a lookup that read no later than the mark was noted less than 1000 ms ago and neither an own mark nor an overfull memo took it out since |
| `Revocation.SameProcessWrongExactly` | packages/auth/src/revocation.ts:76-112 | the marking process itself answers wrongly if and only if such a lookup was noted after the mark's memo drop |
| `Revocation.SameProcessRace` | packages/auth/src/revocation.ts:76-112 | split open, a check that read before the mark makes even the marking process answer wrongly |
| `Revocation.ListedUntilTokenExpiry` | packages/auth/src/revocation.ts:75-79 | from a mark until the exp of any token minted before it, the deny-list lists the session in every continuation |
| `SessionLimits.EvictsActive` | packages/auth/src/session.ts:77-95 | only active sessions are evicted, each once, never the one just minted |
| `SessionLimits.EvictsOldest` | packages/auth/src/session.ts:77-95 | an evicted session is no newer than any other survivor |
| `SessionLimits.EvictionMeetsCap` | packages/auth/src/session.ts:77-95 | exactly min(cap, active) sessions stay, if and only if the cap is at least one or the kept session is not active |
| `SessionLimits.ByAgeSorts` | packages/auth/src/session.ts:90-92 | candidates are ordered oldest first |
| `Memberships.Directory.Landing` | packages/db/src/repositories/workspaceRepository.ts:235-242 | the landing workspace is always a membership, is missing only without any, and is the remembered one when that is still valid |
| `Sessions.AuthSessions.CreateSession` | packages/auth/src/session.ts:120-138 | creation adds one session of the login's lineage with the capped lifetime and evicts over the cap |
| `Sessions.AuthSessions.EnforceConcurrentSessionCap` | packages/auth/src/session.ts:100-118 | the evicted sessions are revoked and deny-listed, and nothing else changes |
| `Sessions.AuthSessions.Evict` | packages/auth/src/session.ts:111-112 | revoking one by one, then deny-listing all, equals one cut of the whole set |
| `Sessions.AuthSessions.RotateSession` | packages/auth/src/session.ts:141-172 | rotation revokes and deny-lists the old session and adds its successor, never past the given deadline |
| `Sessions.AuthSessions.RevokeSession` | packages/auth/src/session.ts:175-178 | a revoked session is deny-listed at once and forgotten by this process's memo |
| `Sessions.AuthSessions.RevokeAllSessionsForUser` | packages/auth/src/session.ts:181-184 | a force-logout revokes and deny-lists exactly the unrevoked sessions of the user |
| `Sessions.AuthSessions.FindActiveSessionOrDetectReuse` | packages/auth/src/session.ts:203-228 | unknown, expired, raced and replayed tokens are told apart; only a replay changes anything |
| `Sessions.AuthSessions.RefreshAccessToken` | packages/auth/src/refresh.ts:29-128 | a refresh revokes the idle session or rotates it under the enforced limits, and answers accordingly |
| `Sessions.AuthSessions.SwitchOrg` | packages/auth/src/switchOrg.ts:28-98 | an org switch rotates into the target tenant and its landing workspace after the membership check |
| `Sessions.AuthSessions.SwitchWorkspace` | packages/auth/src/switchWorkspace.ts:32-99 | a workspace switch re-pins and rotates after the role check |
| `SessionRuns.StepKeeps` | packages/auth/src/session.ts:100-228 | every operation keeps the protocol invariant |
| `SessionRuns.RunKeeps` | packages/auth/src/session.ts:100-228 | so does every run |
| `SessionRuns.LineagesHaveOneSession` | packages/auth/src/session.ts:140-172 | in every reachable state a lineage has at most one unrevoked session |
| `SessionSafety.StepGrows` | packages/db/src/repositories/userRepository.ts:372-415 | no operation un-revokes a session, moves a row or shortens a deny-list entry |
| `SessionSafety.RevokedForever` | packages/auth/src/session.ts:190-226 | the token of a revoked session is refused by refresh and both switches in every continuation |
| `SessionSafety.GraceChangesNothing` | packages/auth/src/session.ts:210-225 | within the grace window a presented token of a rotated session leaves the state as it was |
| `SessionSafety.ForceLogoutIsComplete` | packages/db/src/repositories/userRepository.ts:586-593 | every session of the user is revoked and deny-listed, and no other row is touched |
| `SessionSafety.ReplayEndsTheFamily` | packages/auth/src/session.ts:190-217 | past the window a replay is refused and ends every session of the user |
| `SessionSafety.NoEarlierTokenAfterReplay` | packages/auth/src/session.ts:190-217 | after it, no refresh token issued to that user before is accepted in any continuation |
| `SessionSafety.AccessEndsWithSession` | packages/auth/src/session.ts:168-178 | once a session is revoked, an access token minted for it before is expired or deny-listed in every later state |
| `SessionSafety.SwitchesStayInside` | packages/auth/src/switchOrg.ts:38-71 | a switch only lands on an active membership and a workspace of that tenant the user belongs to |
| `SessionSafety.RefreshKeepsDeadline` | packages/auth/src/refresh.ts:70-90 | a refresh keeps the deadline if and only if a timeout is enforced or a full lifetime remained anyway |
| `SessionSafety.SwitchResetsDeadline` | packages/auth/src/switchOrg.ts:73-81 | a switch always grants a full lifetime, enforced timeout or not |
| `SessionSafety.NoRefreshPastDeadline` | packages/auth/src/refresh.ts:70-73 | per lineage, whatever all others do: while the lineage is refreshed under an enforced timeout and not switched, no refresh of it succeeds after login time + min(default lifetime, cap) |
| `SessionSafety.RefreshesWithinWindow` | packages/auth/src/refresh.ts:75-79 | per lineage, whatever all others do: while its refreshes meet an enforced idle window and it is not switched, successive ones are never further apart than the window |
| `SessionSafety.CapHolds` | packages/auth/src/session.ts:97-118 | right after a capped login the user has exactly min(cap, live) live sessions, the new one among them |
| `SessionSafety.DoubleRotationForks` | packages/db/src/repositories/userRepository.ts:405-415 | rotate does not recheck the old session: two rotations of one session fork its lineage |
| `RotationRaces.OneLiveExactly` | packages/db/src/repositories/userRepository.ts:405-415 | with every rotation split into finding and rotating, over all runs: a lineage never has two unrevoked sessions if and only if no rotation is of a session that was revoked after it was found while its lineage lives on |
| `RotationRaces.StepExactly` | packages/db/src/repositories/userRepository.ts:405-415 | per step: only such a rotation leaves two unrevoked sessions in a lineage, and every other step keeps the whole protocol invariant |
| `RotationRaces.RefreshIsTwoSteps` | packages/auth/src/refresh.ts:29-128 | the split model refines the whole one: a refresh is a find and a rotation with nothing in between |
| `Policy.StrictestMfa` | packages/auth/src/policy.ts:17-21 | the strictest of any number of levels, missing ones ignored |
| `Policy.Keep` | packages/auth/src/policy.ts:24-32 | filtering a list by another is their intersection |
| `PolicyLaws.StrictestWins` | packages/auth/src/policy.ts:40-63 | over chains of any length the composed policy permits a level, method, lifetime, gap or session count exactly when every scope does |
| `PolicyLaws.MethodAllowedEverywhere` | packages/auth/src/policy.ts:66-70 | a method is allowed under the composition exactly when every scope allows it |
| `PolicyLaws.FoldIsIntersection` | packages/auth/src/policy.ts:24-28 | with a common entry the folded allowlist is the intersection of the non-empty lists |
| `PolicyLaws.FoldTightens` | packages/auth/src/policy.ts:24-28 | the fold is a restriction inside every list if and only if the non-empty lists share an entry |
| `PolicyLaws.AddressesTighten` | packages/auth/src/policy.ts:113-121 | with a shared entry, an address the composition admits is admitted by every scope |
| `PolicyLaws.DisjointListsCancel` | packages/auth/src/policy.ts:24-28 | two restricting lists leave no restriction if and only if they are disjoint |
| `PolicyLaws.TightenAssociates` | packages/auth/src/policy.ts:108-111 | the exact condition under which the fold on lists is associative, which the comment claims without one |
| `PolicyLaws.OrderIrrelevant` | packages/auth/src/policy.ts:108-111 | permuting or repeating overrides gives the same policy up to list order, if the lists share an entry |
| `PolicyLaws.OrderMatters` | packages/auth/src/policy.ts:108-111 | two overrides in either order give the same policy, up to list order, if and only if the platform list meets both lists or neither, and where it meets neither they hold the same addresses |
| `PolicyLaws.TightenCommutes` | packages/auth/src/policy.ts:108-111 | the same condition for the fold on three non-empty allowlists |
| `PolicyWrites.FindFloorViolations` | packages/auth/src/policy.ts:91-101 | the violations found are exactly the present keys whose values the guard refuses; a key that holds undefined is present |
| `PolicyWrites.FilterKeepsList` | packages/auth/src/policy.ts:74-81 | against a duplicate-free floor a proposed list survives the clamp if and only if it is a duplicate-free subset |
| `PolicyWrites.GuardIsStrictness` | packages/auth/src/policy.ts:83-101 | a key passes the guard if and only if it is at least as strict and repeats nothing |
| `PolicyWrites.NoViolationsIffStrict` | packages/auth/src/policy.ts:83-101 | on duplicate-free lists no violation is found if and only if every proposed key is at least as strict as the floor |
| `PolicyWrites.GuardNeedsDistinctFloor` | packages/auth/src/policy.ts:74-101 | the guard is right about duplicate-free method lists if and only if the floor repeats nothing |
| `PolicyWrites.GuardNeedsDistinctAddresses` | packages/auth/src/policy.ts:74-101 | the same for address lists |
| `PolicyWrites.RepeatedFloorAcceptsWeaker` | packages/auth/src/policy.ts:74-101 | a floor that repeats an entry lets a weaker list through |
| `PolicyRows.ParseInverse` | packages/types/src/auth.ts:154-166 | a value that is there is accepted by a validator exactly when it is the written form of a legal value of its key |
| `PolicyRows.MissingValueAccepted` | packages/auth/src/policy.ts:201-221 | a write without a value is accepted for exactly six keys: the three limits where the floor leaves them unset, the two flags where it leaves them off, the allowlist where it is empty |
| `PolicyRows.AssembleScopePolicy` | packages/auth/src/policy.ts:156-168 | the loop over the rows builds the assembled override |
| `PolicyRows.LastWellFormedRowWins` | packages/auth/src/policy.ts:149-168 | a key is set by its last well-formed row, and is unset only if no row is well-formed |
| `PolicyRows.ValidatePolicyWrite` | packages/auth/src/policy.ts:209-221 | the write decision composes the value check and the floor guard, for any value or none |
| `PolicyRows.AcceptedExactly` | packages/auth/src/policy.ts:201-221 | accepted are exactly the legal values, written, or left out where the key has a reading for that, at least as strict as a duplicate-free floor and repeating nothing it restricts |
| `PolicyRows.AcceptedSurvives` | packages/auth/src/policy.ts:201-221 | an accepted value survives resolution against the floor and touches no other key |
| `PolicyRows.RowsTighten` | packages/auth/src/policy.ts:258-280 | platform rows replace the floor; org and workspace rows only tighten, and the result permits exactly what all three permit |
| `PolicyRows.PlatformRowWins` | packages/auth/src/policy.ts:258-274 | a platform row sets its key to any legal value, stricter than the floor or weaker, and no other key |
| `PolicyRows.OnlyPlatformLoosens` | packages/auth/src/policy.ts:258-280 | nothing else loosens it: without a well-formed platform row for the key, what resolution permits the floor permits, whatever the org and workspace rows say |
| `PolicyRows.IrrelevantRowIgnored` | packages/auth/src/policy.ts:260-273 | a row of another workspace or an unknown scope changes neither the policy nor the cap |
| `PolicyRows.ResolveMaxConcurrentSessions` | packages/auth/src/policy.ts:229-243 | the targeted read is the smallest cap the three assembled scopes set: unset only if none sets one, allowing a number of sessions exactly when every scope does |
| `PolicyRows.TargetedReadAgrees` | packages/auth/src/policy.ts:229-280 | it equals the full resolution's cap if and only if the floor sets none, a platform row overrides it, or the org's or workspace's cap is no larger |
| `PolicyRows.CapsArePositive` | packages/auth/src/policy.ts:229-243 | a cap that is read is always one to enforce |
| `PolicyShadow.SameSetSound` | packages/auth/src/policyShadow.ts:27-31 | passing the test means equal sets when the second list repeats nothing |
| `PolicyShadow.SameSetNeedsDistinct` | packages/auth/src/policyShadow.ts:27-31 | and only then: the test is right for every first list if and only if the second is duplicate-free |
| `PolicyShadow.EquivalentIffSame` | packages/auth/src/policyShadow.ts:33-45 | on duplicate-free lists two policies pass exactly when they say the same, the cap apart |
| `PolicyShadow.EquivalentChangesNoGate` | packages/auth/src/policyShadow.ts:33-45 | then swapping one for the other changes no verdict: method, address, MFA, expiry and idle test, for every input |
| `PolicyShadow.RepeatsFoolTheTest` | packages/auth/src/policyShadow.ts:27-31 | with a repeated entry the test passes policies that disagree |
| `LoginGates.CheckGates` | packages/auth/src/flow.ts:246-279 | the address gate, then the method gate, with their two let-through cases |
| `LoginGates.GateFollowsPolicy` | packages/auth/src/flow.ts:263-270 | the method gate agrees with the policy if and only if its method list is not empty |
| `LoginGates.DisjointMethodListsOpenTheGate` | packages/auth/src/flow.ts:263-270 | scopes without a common method leave the gate open although the policy allows nothing |
| `LoginGates.GatesTighten` | packages/auth/src/flow.ts:246-279 | with a shared address entry and a surviving method, passing the composed gates means passing every scope's |
| `IpText.Ipv4ToInt` | packages/auth/src/ipAllowlist.ts:16-29 | the loop computes the base-256 value of four decimal octets, or refuses |
| `IpText.Ipv6ToBigInt` | packages/auth/src/ipAllowlist.ts:36-76 | the parser expands `::`, takes a trailing dotted quad and accepts exactly eight hextets |
| `IpText.ReadOctets` | packages/auth/src/ipAllowlist.ts:18-28 | the octet loop refuses or accumulates exactly the positional value |
| `IpText.ShiftIn` | packages/auth/src/ipAllowlist.ts:70-75 | the hextet loop does the same in base 65536 |
| `IpText.PrintReads` | packages/auth/src/ipAllowlist.ts:22-26 | printing a number and reading it gives it back |
| `IpRoundTrip.RoundTripV4` | packages/auth/src/ipAllowlist.ts:16-29 | every 32-bit value survives printing and parsing |
| `IpRoundTrip.RoundTripV6` | packages/auth/src/ipAllowlist.ts:36-76 | every 128-bit value survives printing in eight hextets and parsing |
| `IpRoundTrip.CompressionKeepsValue` | packages/auth/src/ipAllowlist.ts:38-66 | replacing any run of zero hextets by `::` keeps the value, an empty run included (section 2.2 of RFC 4291) |
| `IpRoundTrip.EmbeddedV4KeepsValue` | packages/auth/src/ipAllowlist.ts:46-54 | after `::` the last two hextets may be a dotted quad |
| `IpRoundTrip.FullFormRefusesEmbeddedV4` | packages/auth/src/ipAllowlist.ts:46-63 | without `::` a dotted quad is refused, which section 2.2 of RFC 4291 allows |
| `IpRoundTrip.LeadingZerosAccepted` | packages/auth/src/ipAllowlist.ts:21-22 | octets may carry leading zeros, contrary to the comment |
| `IpRoundTrip.ParsedV4InRange` | packages/auth/src/ipAllowlist.ts:27-28 | parsed values are 32 bits wide |
| `IpRoundTrip.ParsedV6InRange` | packages/auth/src/ipAllowlist.ts:71-75 | parsed values are 128 bits wide |
| `IpMatch.NormalizeIp` | packages/auth/src/ipBinding.ts:62-72 | the successive rewrites give the normalized text |
| `IpMatch.MaskV4Value` | packages/auth/src/ipAllowlist.ts:103-104 | the 32-bit shift expression is the mask of the top prefix bits |
| `IpMatch.MaskTestV4` | packages/auth/src/ipAllowlist.ts:102-105 | equality under the 32-bit mask is equality after division by 2^(32 - prefix) |
| `IpMatch.MaskTestV6` | packages/auth/src/ipAllowlist.ts:119-121 | the same for 128 bits |
| `IpMatch.IpInCidr` | packages/auth/src/ipAllowlist.ts:82-126 | an address matches an entry exactly when it lies in the entry's block; malformed input never matches |
| `IpMatch.TestEntry` | packages/auth/src/ipAllowlist.ts:91-122 | the family of entry and client must agree, and the prefix must be within the width |
| `IpMatch.IsIpAllowed` | packages/auth/src/ipAllowlist.ts:133-136 | an empty list admits everyone; otherwise some entry's block must contain the address |
| `IpLaws.SubBlock` | packages/auth/src/ipAllowlist.ts:102-121 | a longer prefix admits a subset exactly when its network lies in the shorter block (section 3.1 of RFC 4632) |
| `IpLaws.NestedOrDisjoint` | packages/auth/src/ipAllowlist.ts:102-121 | any two entries are nested or disjoint |
| `IpLaws.MalformedEntryIgnored` | packages/auth/src/ipAllowlist.ts:128-136 | a malformed entry changes no verdict of a list if and only if the list has another entry |
| `IpLaws.AddressOfMapped` | packages/auth/src/ipBinding.ts:57-72 | an IPv4-mapped text (section 2.5.5.2 of RFC 4291) is the IPv4 address |
| `IpLaws.AddressOfV6` | packages/auth/src/ipAllowlist.ts:36-76 | full and compressed spellings are one address |
| `IpLaws.AllowlistV4` | packages/auth/src/ipAllowlist.ts:133-136 | end to end on text: a printed address is admitted by "net/p" exactly when both agree after division by 2^(32 - p) |
| `IpLaws.AllowlistV6` | packages/auth/src/ipAllowlist.ts:133-136 | the same for IPv6 and 2^(128 - p) |
| `IpLaws.SamePrefixV4` | packages/auth/src/ipBinding.ts:74-87 | prefix binding on IPv4, mapped or not, is the same /24 |
| `IpLaws.SamePrefixV6` | packages/auth/src/ipBinding.ts:74-87 | prefix binding on full IPv6 text is the same /64 |
| `IpLaws.SameStrict` | packages/auth/src/ipBinding.ts:83-85 | strict binding is equality of addresses on printed quads and full IPv6 text |
| `IpLaws.FamiliesNeverMatch` | packages/auth/src/ipBinding.ts:83-87 | IPv4 and IPv6 clients never match, unless binding is off |
| `IpLaws.CompressedBinds` | packages/auth/src/ipBinding.ts:74-87 | a compressed spelling binds like the full one if and only if its `::` starts at or after the fifth hextet |
| `IpLaws.CompressedKeysCollide` | packages/auth/src/ipBinding.ts:74-80 | texts that agree up to the fourth group share a key, although `::` stands for different runs |
| `IpLaws.TwoNetworksOneKey` | packages/auth/src/ipBinding.ts:74-80 | two different /64s with one key |
| `AuthCode.CodeStore.IssueCode` | packages/auth/src/code.ts:30-34 | an issued code holds its binding for the code lifetime |
| `AuthCode.CodeStore.ExchangeCode` | packages/auth/src/code.ts:58-77 | the code is consumed whatever the outcome |
| `AuthCode.SingleUse` | packages/auth/src/code.ts:58-77 | in every run each code is redeemed at most once, for exactly its binding, by a matching request (section 4.1.2 of RFC 6749) |
| `AuthCode.AttemptBurnsCode` | packages/auth/src/code.ts:65-70 | after any attempt no later request redeems the code |
| `LoginFlow.TransactionStore.PatchTxn` | packages/auth/src/loginTransaction.ts:57-64 | a patch merges into a live record and keeps its expiry; a missing one stays missing |
| `LoginFlow.TransactionStore.Create` | packages/auth/src/loginTransaction.ts:43-50 | a new record is unverified and unselected and lives ten minutes |
| `LoginFlow.ResolvedScope.GetOrgs` | packages/auth/src/flow.ts:64-69 | the cached read equals the uncached one within a request |
| `LoginFlow.ResolvedScope.GetWorkspaces` | packages/auth/src/flow.ts:71-78 | the same for workspaces, per tenant |
| `LoginFlow.AuthorizeTenantSelection` | packages/auth/src/scopeGuard.ts:15-28 | the tenant is always a membership, and the requested one if one was requested |
| `LoginFlow.ResolveNextStep` | packages/auth/src/flow.ts:80-134 | the next step and the two selections it patches into the store |
| `LoginFlow.LoginServer.Authorize` | packages/auth/src/flow.ts:163-298 | the checks of finalization, in order, over the cached reads, decide as over fresh ones |
| `LoginFlow.LoginServer.FinalizeLogin` | packages/auth/src/flow.ts:163-329 | a refusal changes nothing; a grant opens one session and stores one code bound to it |
| `LoginRuns.MfaRefusalExactly` | packages/auth/src/flow.ts:102-118 | after a complete or workspace step finalization refuses for MFA if and only if the tenant mandates it and an arm is off |
| `LoginRuns.AutoSelectionAgrees` | packages/auth/src/flow.ts:92-131 | finalizing the in-memory record agrees with the selections patched into the store |
| `LoginRuns.StepKeeps` | packages/auth/src/flow.ts:80-329 | every login step and every page's action, with arbitrary selected ids, keeps every stored code bound to what its user and its record's marks entitle to |
| `LoginRuns.EveryCodeIsEntitled` | packages/auth/src/flow.ts:163-329 | after any run every code is bound to an active membership and a workspace of it the user belongs to, on a record marked MFA-verified where mandated, within ten minutes of primary authentication, and an exchange hands out just that to the matching verifier; the mark means that a factor was shown, in every run without the pages of MandateShownExactly |
| `LoginRuns.FactorShownExactly` | apps/auth/src/app/org/actions.ts:16-36 | over whole runs, no user with a second factor gets a code before that factor was shown on the login, if and only if no selection page takes an unmarked record of such a user to a tenant open to it, and no enrollment ends on a record of a user who had a factor before and did not show it |
| `LoginRuns.MandateShownExactly` | apps/auth/src/app/mfa/enroll/actions.ts:78-169 | over whole runs, no tenant that mandates MFA is entered and no record left marked without a factor shown, if and only if no such enrollment ends by entering such a tenant or being refused |
| `LoginRuns.StepExactly` | apps/auth/src/app/workspace/actions.ts:16-37 | per step: exactly those pages break either promise; step resolution never does |
| `LoginRuns.OrgPageDoesNotAsk` | apps/auth/src/app/org/actions.ts:29-35 | the failing run: the next step is the challenge, and the org page issues a code |
| `LoginRuns.EnrollPageDoesNotAsk` | apps/auth/src/app/mfa/enroll/actions.ts:152-169 | the failing run: the next step is the challenge, and the end of an enrollment, of another factor or of none, enters a tenant that mandates MFA |
| `MailboxThrottle.RedisThrottle.TryConsume` | apps/workers/src/mailboxThrottle.ts:11-35 | the script refills, consumes and writes back, and the key lives one TTL more |
| `MailboxThrottle.RateBound` | apps/workers/src/mailboxThrottle.ts:21-31 | between any two calls at most capacity + refill * elapsed calls are admitted, clock steps back adding nothing |
| `MailboxThrottle.RateBoundOrdered` | apps/workers/src/mailboxThrottle.ts:21-31 | with nondecreasing times elapsed is the difference of the two times |
| `MailboxThrottle.RetryIsExact` | apps/workers/src/mailboxThrottle.ts:28-31 | after a denial, whatever denied calls follow, a call is admitted exactly from retryAfterMs on |
| `MailboxThrottle.DenialsAreTransparent` | apps/workers/src/mailboxThrottle.ts:28-32 | denied calls leave the time of the next admission unchanged |
| `MailboxThrottle.ExpiryChangesNothing` | apps/workers/src/mailboxThrottle.ts:33-48 | for a refill of at least 0.0001 the expiring store answers as one that never expires |
| `MailboxThrottle.ExpiryUnseenIff` | apps/workers/src/mailboxThrottle.ts:48 | expiry is unseen if and only if an empty bucket refills within the TTL |
| `MailboxThrottle.ExpirySeenWithoutRefill` | apps/workers/src/mailboxThrottle.ts:48 | without refill, expiry shows |
| `LeaderLock.LockRedis.Set` | apps/workers/src/leaderLock.ts:24-25 | SET NX PX admits exactly when no lease is live |
| `LeaderLock.LockRedis.EvalRelease` | apps/workers/src/leaderLock.ts:10-11 | compare-and-delete removes only the caller's own live lease |
| `LeaderLock.WithLeaderLock` | apps/workers/src/leaderLock.ts:17-34 | fn runs exactly when the lease was free, and only this call's lease is taken back |
| `LeaderLock.OneHolder` | apps/workers/src/leaderLock.ts:13-16 | in every run at most one section per key is within its TTL and unreleased |
| `LeaderLock.LateReleaseIsHarmless` | apps/workers/src/leaderLock.ts:3-4 | a late release never removes a newer holder's key |
| `LeaderLock.OverlapMeansOutrun` | apps/workers/src/leaderLock.ts:13-16 | two overlapping sections imply the earlier one has outrun its TTL |
| `LeaderLock.TimelyJobsExclude` | apps/workers/src/leaderLock.ts:13-16 | jobs within their TTL exclude each other |
| `LeaderLock.SharedTokensBreakTheLock` | apps/forge-worker/src/leaderLock.ts:21-35 | two attempts with one caller-supplied token break the exclusion |
| `LeaderLock.GuardedExactly` | apps/forge-worker/src/leaderLock.ts:21-35 | with tokens shared or not, over every run: each key has at most one holder and that one its lease, if and only if no release comes from a section whose token another one holds the same key under |
| `LeaderLock.StealingAdmitsAnother` | apps/forge-worker/src/leaderLock.ts:21-35 | an attempt right after the release is admitted beside a holder if and only if the release was such a one |
| `LeaderLock.OwnTokensNeverSteal` | apps/workers/src/leaderLock.ts:17-34 | with a token per attempt no release is |
| `OutboxRelay.OutboxTable.ClaimPendingBatch` | packages/db/src/repositories/outboxRepository.ts:55-100 | a claim counts an attempt on each live row and fails out rows at the cap |
| `OutboxRelay.Relay.Publish` | apps/workers/src/outboxRelay.ts:48-68 | a row is settled by its own outcome, and only a settling failure escapes the row |
| `OutboxRelay.Relay.Tick` | apps/workers/src/outboxRelay.ts:42-79 | with a batch size of at least one the drain ends, after at most as many batches as attempts remain, every row's change has its cause, and with publishers that always throw the table is that of the failing drain |
| `OutboxRelay.DrainFailsOutExactly` | apps/workers/src/outboxRelay.ts:42-70 | when every publish throws, one tick fails a pending row out if and only if it is in the first batch with no attempt left, or a full batch is pending and it is a most tried one of it |
| `OutboxRelay.DrainFailsSomeOut` | apps/workers/src/outboxRelay.ts:55-70 | so one tick fails some row out if and only if a full batch is pending or a pending row has no attempt left |
| `OutboxRelay.ClaimsSpendBudget` | packages/db/src/repositories/outboxRepository.ts:55-100 | every claim is paid for by a remaining attempt |
| `OutboxRelay.ZeroBatchNeverDrains` | apps/workers/src/outboxRelay.ts:45-70 | with batch size zero the drain goes on, the table unchanged, exactly as long as no claim throws and stop() is not called |
| `OutboxRelay.SettledForCause` | apps/workers/src/outboxRelay.ts:48-68 | in every run of any number of relays with failures, published means really published, and failed means unknown topic or the attempts cap |
| `OutboxRelay.DeliveredAtMostTenTimes` | packages/db/src/repositories/outboxRepository.ts:36 | a row is delivered at most ten times |
| `OutboxRelay.SettledStaysSettled` | packages/db/src/repositories/outboxRepository.ts:102-116 | a settled row never becomes pending again |
| `OutboxRelay.TwoRelaysDeliverOneRow` | packages/db/src/repositories/outboxRepository.ts:49-54 | claims of two relays are not disjoint once the claim has committed |
| `OutboxRelay.ClaimsDisjointExactly` | packages/db/src/repositories/outboxRepository.ts:49-54 | over all runs: no two relays ever have one row in hand if and only if no claim takes a still pending, live row while another relay's claim of it is in hand |
| `OutboxRelay.AttemptsStayDisjoint` | packages/db/src/repositories/outboxRepository.ts:49-100 | over all runs: no row and attempt is in hand twice |
| `OutboxRelay.TicksAreOrderly` | apps/workers/src/outboxRelay.ts:76-93 | ticks never overlap, and none runs after stop() resolved |
| `RealtimeRelay.RelayTick.Run` | apps/workers/src/realtimeRelay.ts:19-56 | one tick delivers and marks its batch, or marks nothing |
| `RealtimeRelay.HeldRowsAreDisjoint` | apps/workers/src/realtimeRelay.ts:24-28 | no row is ever held by two instances |
| `RealtimeRelay.RepeatsComeFromAborts` | apps/workers/src/realtimeRelay.ts:45-51 | a marked row was delivered, and every repeat follows an aborted batch |
| `Fusion.FuseConfidence` | cascade/db/src/fusion.ts:13-25 | the loop computes the rounded noisy-OR over the strongest sighting per source |
| `Fusion.FusionDependsOnTheSet` | cascade/db/src/fusion.ts:13-25 | the result depends only on the set of sightings |
| `Fusion.NewEvidence` | cascade/db/src/fusion.ts:13-25 | new evidence never lowers it, and a weaker repeat leaves it unchanged |
| `Fusion.FusionIsAProbability` | cascade/db/src/fusion.ts:19-24 | it stays within [0, 1] |
| `Edges.EdgeStore.Attest` | cascade/db/src/edges.ts:25-45 | an attestation is appended and the edge stores the fusion of its log |
| `Edges.EdgeStore.RecomputeConfidence` | cascade/db/src/edges.ts:47-63 | the stored confidence becomes the fusion of the edge's sightings |
| `Edges.EdgeStore.CloseEdge` | cascade/db/src/edges.ts:94-103 | only an open edge is closed |
| `Edges.RunKeepsConsistency` | cascade/db/src/edges.ts:25-63 | in every run each attested edge stores exactly the fusion of its log |
| `Edges.SameEvidenceSameConfidence` | cascade/db/src/edges.ts:47-63 | equal evidence gives equal confidence, in any runs |
| `Edges.AttestedEdgesOnlyGainConfidence` | cascade/db/src/edges.ts:25-63 | an attested confidence never falls |
| `Edges.ClosedOnce` | cascade/db/src/edges.ts:94-103 | a closing date is set at most once |
| `EdgeRaces.StoredIsAFusion` | cascade/db/src/edges.ts:25-63 | with insert, select and update interleaved in any way, the stored confidence is the fusion of the sightings its update had read |
| `EdgeRaces.CurrentExactly` | cascade/db/src/edges.ts:25-63 | a schedule leaves the row with the fusion of its log, whatever is attested, if and only if the select behind the last update came after the last insert |
| `EdgeRaces.LostUpdate` | cascade/db/src/edges.ts:28-61 | the failing run: two completed attestations, and the row lacks one of them |
| `EdgeRaces.UninterruptedAttestation` | cascade/db/src/edges.ts:25-45 | an attestation that nothing interrupts leaves the row with the fusion of its log |

## Left out

- The reads of a refresh or a switch between finding the session and rotating it: in `RotationRaces` what they decide is arbitrary, elsewhere the operation is one step.
- Attestations of different edges and closings inside an attestation: `EdgeRaces` interleaves the attestations of one edge, `Edges` takes each whole.
- Tenant suspension, audit rows, metrics, log lines and the shadow comparison's reads: side effects or a single branch.
- Redis and database failures that the code answers by carrying on (deny-list, cap enforcement, lock release): the store is taken as reachable, except in the election, whose algorithm is about an unwritable store.
- JWT signing and the verifier's clock tolerance: a token's lifetime is its `exp`.
- Minting an access token at code exchange: refresh and the switches mint in the model; a code's session is only tied to its user and tenant.
- Retention sweeps of `user_sessions` and of the outbox: rows stay.
- Row order among sessions created in the same millisecond: the cap's sort is stable over table order.
- The user-agent, device, address and origin columns of sessions: copied, never decided on.
- Stored policy rows without a value, and policy keys that name inherited object properties (`constructor`): the column holds a value in every row, and the second throws in the source.
- Lower-casing and trimming beyond ASCII letters: address text that survives parsing is ASCII.
- The JSON text of a lock claim, a pending login and a code: claims, records and bindings are values; a claim that does not parse is a case of its own.
- The lock cookie's domain and encoding: a cookie store is a cell whose writes may be dropped and whose content may vanish.
- Broadcast messages between tabs: adopting one is the same event as installing a token.
- Lua number formatting, Redis' integer truncation of an infinite retry when the refill is zero, and a skew between Redis' and the workers' clocks.
- Row-level security and the owner connection: the directory's lists are already scoped to their tenant.
- The remaining routes, server actions, workers, UI and seed code: wiring, or covered by letting selections and directory changes be arbitrary.
- RevokeSession: the memo of other processes is the subject of `Revocation`, not of the session model.
- FalseAnswerIsFresh: the 1000 ms run from the moment a lookup settles, because the code stamps the memo entry after the round-trip; the bound on staleness therefore adds the time that lookup took, which is nothing when operations are atomic (`Revocation.AtomicAnswerIsFresh`).
- RetryRefusedOnlyByNewClaim: the refusing claim may carry an older stamp if its tab stalled between its check and its write, as `RefreshElection.StalledTabRefusesRetry` shows; `RefreshElection.BriskRetryRefusedOnlyByNewClaim` rules that out.
- StandDownThenNewClaim: for stores that drop no write, and until the next new token; a token that arrives in between re-arms the timer as any other.
- AddressesTighten: one direction only, since entries are intersected as text and a narrower entry inside a wider one is not their intersection.
