# Signet protocol model

A Dafny model of the parts of the signet that decide who may do what, and
proofs of what they promise. Four components are modelled:

- **Seals** (`packages/seals`): canonical JSON text, the permission delta
  between two seals, the chain link and its checks, and the manager that issues,
  refreshes, revokes and lists chains of seals.
- **Credentials** (`packages/sessions`): scope resolution, the materiality
  check, the policy text used for deduplication, the in-memory store with its
  three indexes, and the two entry points that must never widen a live
  credential.
- **Key derivation** (`packages/keys/src/derivation.ts`): the byte codec, the
  packing of entropy into words, derivation paths, and the arithmetic of child
  keys.
- **Invite host listener** (`packages/cli/src/invite-host-listener.ts`): one
  dispatch, the paged recovery scan, and the protocol of concurrent invocations
  that share processed and in-flight sets and timers.

Where the source changes things step by step, a method or a class does the same
and is proved equal to a function; the laws are proved about that function.
Objects that keep state have a `View()` and every method says what the new view
is. Runs are sequences of calls (seals, credentials) or of actions in any order
(listener). For each call or action an outcome law says from the outside when it
succeeds and what then has changed, and the laws of runs build on these.

## Files

| files | content |
|---|---|
| `Prelude`, `Ordering`, `Text`, `Bytes` | lists, stable sorting, UTF-16 string order, splitting, decimal numerals, positional numerals |
| `Json`, `JsonCanonical`, `JsonMeaning`, `JsonBuild`, `JsonText` | canonical text, unique readability, meaning, the loop that sorts keys, the grammar of RFC 8259 |
| `Scopes`, `SealDelta`, `SealChain` | scope sets, the six-pass diff and its algebra, chain links and checks |
| `SealBook`, `SealRuns`, `SealLaws`, `SealOutcomes`, `SealManager` | manager state, its invariant, laws of whole runs, what each call comes to, the object |
| `ScopeMateriality`, `PolicyHash` | the guard's diff, the deduplication text |
| `CredentialStore`, `CredentialRuns`, `CredentialLaws`, `CredentialOutcomes`, `CredentialManager` | store, invariant, laws, what each call comes to and why a credential ends, the object |
| `CredentialService`, `CredentialFlow`, `ServiceOutcomes` | the service and the scope-update action, overlapping calls, what is granted |
| `Mnemonic`, `PathParser`, `ChildKeys`, `StandardKeys` | 24 words, derivation paths, child keys, BIP-32 and SLIP-0010 written apart from the code |
| `InviteEvents`, `InviteScan` | requests, one dispatch, the recovery scan |
| `InviteShared`, `InviteListener`, `InviteRuns`, `InviteLaws`, `InviteOutcomes`, `InviteStop`, `InviteHost` | shared state, the transition system, its invariant, safety over every interleaving, what each action comes to and that requests are served, what stopping achieves, the object |

## Where the code and its comments differ

The model follows the code.

- `packages/sessions/src/materiality.ts:8-10` calls a change material if
  something was added or moved to allow; the code also counts removals.
  `ScopeMateriality.MaterialityMeaning` states what the code does.
- `packages/seals/src/compute-delta.ts:53-65`: a scope listed on both sides is
  reported with the same flip as one that moved, so the delta cannot tell the
  two apart (`SealDelta.ReplayAmbiguous`). Replaying a delta is exact under the
  condition of `SealDelta.ReplayDetermines`.
- `packages/sessions/src/policy-hash.ts:4-7` promises that one hash means one
  policy. That needs a hash without collisions. In the other direction, a
  reordered list gives the same text only if no two different items collate as
  equal (`PolicyHash.OrderInsensitiveIff`).
- `packages/keys/src/derivation.ts:212-214` names BIP-32, which has no child
  where the left half is not below the group order or the reduced sum is zero;
  the code reduces the sum and goes on, and the model does too.
  `StandardKeys.ChildIsStandardIff` and `StandardKeys.DeriveIsStandardIff` say
  exactly when a child, and a whole derivation, is the standard's.
- The function returned by `startManagedInviteHostListener`
  (`packages/cli/src/invite-host-listener.ts:510-518`) clears timers but stops no
  invocation, so a retry can still be armed afterwards
  (`InviteStop.StopLeavesRunning`). `InviteStop.ArmsAfterStopIff` says exactly
  when some timer can: when an invocation under way scans, or dispatches a
  request with a key, or belongs to a recovery that can still want a retry or
  still has a message to come that would arm one.
- The recovery scan (`packages/cli/src/invite-host-listener.ts:302-304`) takes the
  time stamp of a page's last message as the next bound. It loses messages
  exactly when two with one time stamp face each other across a page boundary
  (`InviteScan.ShownIff`; a listing of eleven is in `InviteScan.TiedLosesOne`).

## Model

| member | source | states |
|---|---|---|
| JsonBuild.BuildSorted | packages/seals/src/canonicalize.ts:14-29 | the recursive walk with its key-by-key loop builds exactly the value with keys sorted at every depth |
| JsonBuild.BuildFields | packages/seals/src/canonicalize.ts:23-28 | filling a fresh object in sorted key order yields the sorted fields in enumeration order, index-like keys first and `__proto__` dropped |
| JsonMeaning.SortKeysMeaning | packages/seals/src/canonicalize.ts:13-29 | sorting keys changes nothing a reader of the JSON text can see, and keeps the value well formed |
| JsonMeaning.SortKeysIdempotent | packages/seals/src/canonicalize.ts:13-29 | sorting a second time changes nothing |
| JsonCanonical.ValueCancel | packages/seals/src/canonicalize.ts:8-11 | printed JSON has one reading: equal texts with any continuation come from values of one meaning, and leave equal continuations |
| JsonMeaning.MeaningFixesText | packages/seals/src/canonicalize.ts:1-11 | values that differ only in key order at any depth have one canonical text |
| JsonMeaning.CanonicalIffMeaning | packages/seals/src/canonicalize.ts:1-11 | two values share their canonical text if and only if they denote the same JSON value |
| JsonText.CanonicalSays | packages/seals/src/canonicalize.ts:8-29 | canonical text is a JSON text by the grammar of RFC 8259, which is written apart from the printer, and says just what the value means |
| JsonText.KeysAscend | packages/seals/src/canonicalize.ts:18-28 | in canonical text an object's keys ascend: array indices first by value, then the others by their characters; `__proto__` is none of them |
| Scopes.ResolveScopeSet | packages/schemas/src/permission-scopes.ts:163-180 | the loop returns exactly the scopes that are allowed and not denied |
| Scopes.ResolvePolicyGrants | packages/schemas/src/policy.ts:72-81 | merging a policy with inline lists grants what either grants less every deny of either: an inline allow never overrides a policy's deny |
| SealDelta.ComputePayloadDelta | packages/seals/src/compute-delta.ts:12-84 | the six passes compute the delta, in the order in which the loops push |
| SealDelta.DiffEnteringAllow | packages/seals/src/compute-delta.ts:29-39 | first pass: newly allowed scopes, split into additions and flips from deny |
| SealDelta.DiffLeavingAllow | packages/seals/src/compute-delta.ts:41-51 | second pass: scopes no longer allowed, split into removals and flips to deny |
| SealDelta.DiffAppearingDeny | packages/seals/src/compute-delta.ts:53-59 | third pass: allowed before and after, newly denied |
| SealDelta.DiffVanishingDeny | packages/seals/src/compute-delta.ts:61-65 | fourth pass: allowed before and after, no longer denied |
| SealDelta.DiffFreshDeny | packages/seals/src/compute-delta.ts:67-73 | fifth pass: newly denied and not allowed before |
| SealDelta.DiffDroppedDeny | packages/seals/src/compute-delta.ts:75-81 | sixth pass: no longer denied and not allowed after |
| SealDelta.AddedMembers | packages/seals/src/compute-delta.ts:29-81 | which of the sixteen allow/deny cases report a scope as added |
| SealDelta.RemovedMembers | packages/seals/src/compute-delta.ts:41-73 | which cases report a scope as removed |
| SealDelta.ChangedMembers | packages/seals/src/compute-delta.ts:29-65 | which cases report a scope as flipped, and in which direction |
| SealDelta.DeltaEmptyIff | packages/seals/src/compute-delta.ts:12-84 | the delta is empty if and only if both allow lists and both deny lists name the same scopes |
| SealDelta.DeltaDistinct | packages/seals/src/compute-delta.ts:21-83 | no list repeats an entry and no scope flips twice |
| SealDelta.DeltaSwap | packages/seals/src/compute-delta.ts:12-84 | swapping the two payloads swaps added with removed, entry for entry, and reverses every flip |
| SealDelta.ReplayDetermines | packages/seals/src/compute-delta.ts:12-84 | previous permissions and delta give back the next ones if and only if no scope goes from exactly one of the two lists to both |
| SealDelta.ReplayDisjoint | packages/seals/src/compute-delta.ts:12-84 | in particular whenever the next allow and deny lists are disjoint |
| SealDelta.ReplayAmbiguous | packages/seals/src/compute-delta.ts:53-65 | wherever that condition fails, other next permissions have a delta with the same entries, so no reader of the delta can tell them apart |
| SealDelta.AmbiguousFromAllow | packages/seals/src/compute-delta.ts:41-59 | the smallest case for an allowed scope: denied, or listed on both sides, gives one delta |
| SealDelta.AmbiguousFromDeny | packages/seals/src/compute-delta.ts:29-39 | the smallest case for a denied scope |
| SealChain.VerifyChainDeltaIff | packages/seals/src/chain-validator.ts:71-123 | a chain is accepted if and only if its stored delta is a reordering, list by list, of the recomputed one |
| SealChain.ValidLinkIff | packages/seals/src/chain-validator.ts:15-64 | the structural check passes exactly when operator, credential and chat stay the same and time does not go back |
| SealRuns.ChainKeyInjective | packages/seals/src/manager.ts:59-62 | for valid identifiers the composite key determines credential and chat |
| SealRuns.StepKeepsInv | packages/seals/src/manager.ts:79-290 | every issue, refresh and revoke keeps the bookkeeping: stored seals, inputs, heads, links and revoked pairs agree |
| SealRuns.RunKeepsInv | packages/seals/src/manager.ts:68-361 | so does every run of calls that do not overlap |
| SealLaws.PairChain | packages/seals/src/manager.ts:320-352 | in every reachable state the seals of a pair form one chain: each points back to the one before, the first to none |
| SealLaws.PairComplete | packages/seals/src/manager.ts:324-328 | that chain holds exactly the seals ever stored for the pair |
| SealLaws.ChainHead | packages/seals/src/manager.ts:422-434 | the search for an unreferenced seal finds the newest one |
| SealLaws.HistoryHeadIsNewest | packages/seals/src/manager.ts:334-338 | the live head and the searched head are both the newest seal |
| SealLaws.ChainsOnlyGrow | packages/seals/src/manager.ts:152-155 | later states keep every stored seal as it was and only append to a chain |
| SealLaws.StepGrows | packages/seals/src/manager.ts:79-290 | one call appends at most one seal to a pair's chain, and only if the pair is not revoked and the call succeeded |
| SealLaws.RevokedPairRejects | packages/seals/src/manager.ts:92-97 | once a pair is revoked every issue, refresh or revoke of it fails and changes nothing |
| SealLaws.HeadNotRevoked | packages/seals/src/manager.ts:285-287 | no pair is both live and revoked |
| SealLaws.RevocationIsFinal | packages/seals/src/manager.ts:231-299 | over any later run the pair stays revoked, has no head and gains no seal |
| SealLaws.HasInputChangesIff | packages/seals/src/manager.ts:363-383 | the comparison through canonical text is equality of every compared field up to key order |
| SealLaws.IsQuietIff | packages/seals/src/manager.ts:99-122 | when an issue is skipped: same allow and deny sets and same disclosures as the head |
| SealLaws.IssueQuietIff | packages/seals/src/manager.ts:79-158 | a successful issue stores nothing if and only if that holds, and afterwards the head carries the resolver's latest allow and deny sets |
| SealOutcomes.IssueDecides | packages/seals/src/manager.ts:79-158 | `issue` succeeds exactly for a resolved, unrevoked pair whose head already says it all or whose new seal is valid, signed and published; only then is a seal stored, which says every resolved field, points back to the head and carries the difference to it; otherwise nothing changes |
| SealOutcomes.RefreshDecides | packages/seals/src/manager.ts:160-229 | `refresh` succeeds exactly for a live head whose renewed payload is valid, signed and published; the new head repeats the old one at a new time with an empty difference; otherwise nothing changes |
| SealOutcomes.RevokeDecides | packages/seals/src/manager.ts:231-290 | `revoke` succeeds exactly for a stored seal of an unrevoked pair whose revocation is valid, signed and published; then the pair is revoked and headless, every other pair and every seal is as before; otherwise nothing changes |
| SealOutcomes.RevokedForGood | packages/seals/src/manager.ts:231-299 | after a successful `revoke`, over any later run, the pair stays revoked, has no head, gains no seal, and every further call on it fails and changes nothing |
| SealLaws.StepOrderly | packages/seals/src/build.ts:50-101 | with a clock that does not run backwards and one operator per credential, each call keeps every stored link valid |
| SealLaws.PublishedChainsVerify | packages/seals/src/chain-validator.ts:15-90 | every seal a manager ever stores passes both the structural check and the delta check |
| SealLaws.ValidChainUniform | packages/seals/src/chain-validator.ts:15-64 | a chain whose links all pass the structural check stays with one operator, credential and chat and never goes back in time |
| SealLaws.RebuildsNext | packages/seals/src/build.ts:88-97 | a rebuilt chain stays rebuilt over its next link if and only if that link takes no scope from exactly one list to both |
| SealLaws.RebuiltIsLast | packages/seals/src/build.ts:88-97 | replaying a chain's deltas from its first permissions gives its last ones when every link is of that kind |
| SealLaws.RebuiltIff | packages/seals/src/build.ts:88-97 | replaying gives the permissions of every seal of the chain if and only if every link is of that kind |
| SealLaws.DeltasRebuildHead | packages/seals/src/manager.ts:320-352 | in every reachable state the same holds of a pair's seals, the newest included |
| SealManager.Manager.constructor | packages/seals/src/manager.ts:68-76 | a new manager is empty and satisfies the invariant |
| SealManager.Manager.Issue | packages/seals/src/manager.ts:79-158 | state and answer of `issue`, error cases in the source's order; the invariant is kept |
| SealManager.Manager.Publish | packages/seals/src/manager.ts:126-157 | build, sign, publish, then track: nothing is tracked unless all three succeed |
| SealManager.Manager.Refresh | packages/seals/src/manager.ts:160-229 | state and answer of `refresh`: only the live head of an unrevoked pair |
| SealManager.Manager.Revoke | packages/seals/src/manager.ts:231-290 | state and answer of `revoke`: the head goes and the pair is marked exactly when the revocation was published, and a failed call changes nothing |
| SealManager.Manager.Current | packages/seals/src/manager.ts:292-299 | a head is returned if and only if a seal was issued and the pair is not revoked, and it is the newest seal |
| SealManager.Manager.History | packages/seals/src/manager.ts:320-352 | returns every seal ever issued for the pair exactly once, newest first, live or revoked |
| SealManager.Manager.Walk | packages/seals/src/manager.ts:340-351 | the cursor loop terminates and reverses the chain |
| ScopeMateriality.CheckMateriality | packages/sessions/src/materiality.ts:23-88 | the loop over all mentioned scopes computes the three lists and both flags |
| ScopeMateriality.MaterialityMeaning | packages/sessions/src/materiality.ts:73-78 | material if and only if the resolved scopes differ; reauthorization if and only if the new ones are not a subset of the old |
| ScopeMateriality.MaterialityLists | packages/sessions/src/materiality.ts:43-70 | of each scope: a gain is listed as added, or as flipped if it was mentioned before; a loss as removed, or as flipped if it is now denied; nothing else is listed |
| PolicyHash.CanonicalPolicyIffSorted | packages/sessions/src/policy-hash.ts:22-48 | the text is the same if and only if the sorted lists are |
| PolicyHash.CanonicalPolicyIff | packages/sessions/src/policy-hash.ts:13-48 | the text is the same if and only if allow, deny and chat lists agree as multisets, given that the collation tells the items apart |
| PolicyHash.CanonicalPolicyOnlyIf | packages/sessions/src/policy-hash.ts:13-48 | under any collation whatever, equal text means equal multisets |
| PolicyHash.OrderInsensitiveIff | packages/sessions/src/policy-hash.ts:31-37 | a request's text survives every reordering if and only if no two different items of one list collate as equal |
| CredentialRuns.StepKeepsInv | packages/sessions/src/credential-manager.ts:157-562 | every call keeps the three indexes exact, the derived fields derived and the number of active credentials within the limit |
| CredentialRuns.RunKeepsInv | packages/sessions/src/credential-manager.ts:150-565 | so does every run with fresh identifiers and a clock that does not run backwards |
| CredentialRuns.EvictedIsOldest | packages/sessions/src/credential-manager.ts:283-299 | who is evicted: nobody below the limit, otherwise an active record issued no later than any other active one |
| CredentialRuns.DerivedLater | packages/sessions/src/credential-manager.ts:308-335 | expiry never lies further ahead than the TTL, at any later time either |
| CredentialLaws.IssueRevokesOldest | packages/sessions/src/credential-manager.ts:275-335 | issuing changes at most one existing record, exactly when the operator is at its limit, revoking an oldest active one; the answer is active with the requested policy |
| CredentialLaws.RunLater | packages/sessions/src/credential-manager.ts:178-226 | over any run no record disappears or changes identity, none that left `active` returns to it, and no expiry moves earlier |
| CredentialLaws.RunKeepsUnique | packages/sessions/src/credential-manager.ts:301-306 | without scope updates no operator holds two active credentials with one policy hash |
| CredentialLaws.UniqueCanonicalPolicies | packages/sessions/src/credential-manager.ts:301-306 | hence none with one canonical policy, in any run from the empty store |
| CredentialLaws.LookupIff | packages/sessions/src/credential-manager.ts:337-354 | a token opens a record if and only if an active, unexpired record carries it; a failed lookup touches expired records only |
| CredentialLaws.SweepSettles | packages/sessions/src/credential-manager.ts:526-562 | a sweep leaves no active record past a deadline, reports exactly the records it changed, expires the ones past their TTL, revokes the others, and leaves the rest alone |
| CredentialOutcomes.IssueDecides | packages/sessions/src/credential-manager.ts:275-335 | issuing answers with an active twin that survives the eviction if there is one, and otherwise with a new record as requested: TTL, expiry, grants, hash, identifiers |
| CredentialOutcomes.IssueLeaves | packages/sessions/src/credential-manager.ts:283-299 | of the records already there, issuing revokes the one given up and leaves every other as it was |
| CredentialOutcomes.LookupDecides | packages/sessions/src/credential-manager.ts:337-354 | a token lookup finds nothing exactly when no record carries the token; an outlived record is relabelled and not opened; any other opens exactly if active |
| CredentialOutcomes.HeartbeatDecides | packages/sessions/src/credential-manager.ts:385-400 | a heartbeat counts exactly for an active record, and moves its last heartbeat to now and nothing else |
| CredentialOutcomes.RenewDecides | packages/sessions/src/credential-manager.ts:402-429 | renewal succeeds exactly for an active record with at most the window left, and moves its expiry to one TTL from now; otherwise nothing changes |
| CredentialOutcomes.RescopeDecides | packages/sessions/src/credential-manager.ts:431-450 | new scopes take effect exactly on an active record, which then grants what they allow and do not deny |
| CredentialOutcomes.RevokeDecides | packages/sessions/src/credential-manager.ts:452-462 | revoking succeeds exactly for a record that exists, and marks it with reason and time |
| CredentialOutcomes.RevokeAllDecides | packages/sessions/src/credential-manager.ts:464-474 | revoking all of an operator's credentials revokes exactly that operator's active ones |
| CredentialOutcomes.SweepDecides | packages/sessions/src/credential-manager.ts:526-562 | what a sweep makes of each record: expired at its expiry, revoked once silent for interval and grace period, else unchanged |
| CredentialOutcomes.StepEndsIff | packages/sessions/src/credential-manager.ts:275-562 | one call ends an active credential exactly for one of five reasons: eviction, a lookup past expiry, revocation, revocation of its operator, a sweep past a deadline |
| CredentialOutcomes.RunEndsIff | packages/sessions/src/credential-manager.ts:150-565 | over any run an active credential is still active exactly when no call had one of these reasons to end it |
| CredentialOutcomes.SparedOpens | packages/sessions/src/credential-manager.ts:337-354 | until its expiry the token of a credential that no call had such a reason to end opens it, after any run |
| CredentialOutcomes.RenewalLasts | packages/sessions/src/credential-manager.ts:402-429 | so a renewed credential opens for one TTL from the renewal |
| CredentialOutcomes.IssueLasts | packages/sessions/src/credential-manager.ts:275-335 | and a new one for one TTL from its issue |
| CredentialManager.Manager.UpsertRecord | packages/sessions/src/credential-manager.ts:167-176 | a record enters all three indexes |
| CredentialManager.Manager.GetActiveForOperator | packages/sessions/src/credential-manager.ts:228-241 | the active identifiers of an operator, in insertion order |
| CredentialManager.Manager.RevokeRecordById | packages/sessions/src/credential-manager.ts:250-264 | one record becomes revoked with reason and time, nothing else changes |
| CredentialManager.Manager.IssueCredential | packages/sessions/src/credential-manager.ts:275-335 | evict, then deduplicate, then store: new store and answer |
| CredentialManager.Manager.EvictAtLimit | packages/sessions/src/credential-manager.ts:283-299 | the eviction on its own |
| CredentialManager.Manager.GetCredentialByToken | packages/sessions/src/credential-manager.ts:337-354 | answer and relabelling of a token lookup |
| CredentialManager.Manager.RecordHeartbeat | packages/sessions/src/credential-manager.ts:385-400 | only an active record's heartbeat moves |
| CredentialManager.Manager.RenewCredential | packages/sessions/src/credential-manager.ts:402-429 | new store and answer: success exactly for an active record inside the window, with expiry now plus the TTL; a refusal changes nothing |
| CredentialManager.Manager.UpdateCredentialScopes | packages/sessions/src/credential-manager.ts:431-450 | scopes, resolution and hash change together, for active records only |
| CredentialManager.Manager.RevokeCredential | packages/sessions/src/credential-manager.ts:452-462 | answer and new store of a revocation |
| CredentialManager.Manager.RevokeAllCredentials | packages/sessions/src/credential-manager.ts:464-474 | every active record of the operator is revoked |
| CredentialManager.Manager.SweepExpired | packages/sessions/src/credential-manager.ts:526-562 | the loop that rewrites the map it walks over equals the sweep of the whole store, and returns the changed records in store order |
| CredentialService.GuardDecides | packages/sessions/src/service.ts:256-282 | a request that would add a scope leaves the scopes as they were and the credential revoked; any other request to an active credential grants just what was asked; other credentials are untouched |
| CredentialService.ServiceStepNarrows | packages/sessions/src/service.ts:127-299 | no service call or scope-update action widens any credential |
| CredentialService.ServiceNeverWidens | packages/sessions/src/service.ts:205-283 | over any run of both, what a credential resolves to later is a subset of what it resolved to before |
| CredentialService.UpdateScopesNarrows | packages/sessions/src/update-actions.ts:52-108 | the action never widens and keeps the store's invariant |
| CredentialFlow.WholeCall | packages/sessions/src/service.ts:127-299 | a call split at its `await` with nothing in between is the call as one transition |
| CredentialFlow.OverlapNeverWidens | packages/sessions/src/service.ts:205-283 | however calls overlap at their awaits, no credential widens and the store's invariant holds |
| CredentialFlow.ResumeDecides | packages/sessions/src/update-actions.ts:70-101 | after the wait the guard decides on the record as it is then: what would widen it revokes it |
| ServiceOutcomes.ServiceIssueDecides | packages/sessions/src/service.ts:128-171 | issuing fails exactly when the policy is missing, having only swept; otherwise the answer is an active, stored credential of the operator, and a new one grants exactly what policy or request allow and neither denies; so does every one if hashes do not collide |
| ServiceOutcomes.ServiceIssueLeaves | packages/sessions/src/service.ts:128-171 | to each credential already there it does what the sweep does, and it gives up the oldest one left if the operator is still at its limit |
| ServiceOutcomes.ResumeGrants | packages/sessions/src/service.ts:137-171 | a call to issue that waited for its policy grants the same, whatever happened meanwhile |
| ServiceOutcomes.AnyGrants | packages/sessions/src/credential-manager.ts:301-306 | without hash collisions an older credential returned in place of a new one grants just what was asked |
| ServiceOutcomes.UpdateRefuses | packages/sessions/src/service.ts:205-246 | the refusals of `update`, in order, each leaving the store alone; an update that asks for no change is answered with the record |
| ServiceOutcomes.UpdateDecides | packages/sessions/src/service.ts:233-283 | any other update asks for the policy with the given lists, or for the given lists in the place of the record's own; it revokes if one of these scopes is new to the record, and otherwise an active record grants exactly these |
| ServiceOutcomes.ActionDecides | packages/sessions/src/update-actions.ts:52-108 | the action sweeps, refuses a missing or no longer active credential, and otherwise revokes or grants exactly what was asked |
| CredentialService.Service.IssueThroughPolicy | packages/sessions/src/service.ts:128-171 | new store and answer: sweep, resolve the policy, issue; a failed policy lookup leaves only the sweep; what is granted is in `ServiceOutcomes.ServiceIssueDecides` |
| CredentialService.Service.UpdateCredential | packages/sessions/src/service.ts:205-283 | state and answer of `update`, error cases in the source's order |
| CredentialService.Service.UpdateScopesAction | packages/sessions/src/update-actions.ts:52-108 | state and answer of the action |
| Bytes.BytesToBigInt | packages/keys/src/derivation.ts:320-331 | the shift-and-or loop reads the big-endian number |
| Bytes.BigIntToBytes | packages/keys/src/derivation.ts:333-342 | the loop from the end writes the last base-256 digits of any integer |
| Bytes.OrIsAdd | packages/keys/src/derivation.ts:328 | or-ing into clear low bits adds |
| Bytes.NatRoundTrip | packages/keys/src/derivation.ts:320-342 | encode then decode is the value modulo 256^len, and the value itself if and only if it is in range |
| Bytes.BytesRoundTrip | packages/keys/src/derivation.ts:320-342 | decode then encode is the identity |
| Bytes.BytesToNatInjective | packages/keys/src/derivation.ts:320-331 | byte strings of one length are told apart by their numbers |
| Mnemonic.BitMeaning | packages/keys/src/derivation.ts:307-313 | the bit picked from a byte is that bit of the whole big-endian number |
| Mnemonic.ExtractBits | packages/keys/src/derivation.ts:296-318 | the result is the window of the big-endian number; it fails if and only if the window leaves the bytes, naming the first missing byte |
| Mnemonic.IndexIsWindow | packages/keys/src/derivation.ts:58-60 | window `i` of eleven bits is base-2048 digit `i` |
| Mnemonic.IndicesRegroup | packages/keys/src/derivation.ts:51-66 | the 24 indices give back the 33 bytes |
| Mnemonic.IndicesInjective | packages/keys/src/derivation.ts:51-66 | different bytes give different index lists |
| Mnemonic.ChecksumComesLast | packages/keys/src/derivation.ts:48-66 | the indices spell the entropy with the checksum byte behind it, the last eight bits of the last word |
| Mnemonic.GenerateMnemonic | packages/keys/src/derivation.ts:42-69 | the phrase joins the words of the base-2048 digits of entropy and checksum; it fails if and only if an index is outside the list |
| Mnemonic.MnemonicInjective | packages/keys/src/derivation.ts:36-69 | with 2048 distinct words without spaces, the phrase has 24 words and determines the entropy |
| PathParser.ParsePath | packages/keys/src/derivation.ts:179-210 | the loop returns the parsed segments or the first error |
| PathParser.ParsePartIff | packages/keys/src/derivation.ts:192-207 | a part is accepted if and only if it is a segment's text behind any number of leading zeros with an index below 2^31 |
| PathParser.ParseIff | packages/keys/src/derivation.ts:179-210 | the accepted language and what each path means |
| PathParser.RejectedBecause | packages/keys/src/derivation.ts:183-205 | which error a rejected path gets: no master, or the first part that spells no segment, being empty or not |
| PathParser.ParsePrinted | packages/keys/src/derivation.ts:179-210 | the printed form of a segment list parses to that list if and only if all indices are below 2^31; otherwise it is rejected |
| PathParser.ParseNormalizes | packages/keys/src/derivation.ts:179-210 | parsing what was printed from a parse changes nothing |
| PathParser.EvmPathParses | packages/keys/src/derivation.ts:125-127 | the EVM path of an index parses to the five intended segments for 0 to 2^31-1, and every other index is rejected |
| PathParser.Ed25519PathParses | packages/keys/src/derivation.ts:149-154 | the same for the Ed25519 path |
| ChildKeys.DeriveChild | packages/keys/src/derivation.ts:212-256 | one child: hashed data, reduced sum, new chain code, failure without a public key; that these are those of BIP-32 is `StandardKeys.ChildIsStandardIff` |
| ChildKeys.Fill | packages/keys/src/derivation.ts:220-240 | the 37 bytes that are hashed, filled in place; the last four have their top bit set exactly when the segment is hardened, and hold its index in the other bits |
| ChildKeys.NumberBytes | packages/keys/src/derivation.ts:236-240 | shifting and masking gives the big-endian bytes of the child number |
| ChildKeys.AddScalars | packages/keys/src/derivation.ts:246-253 | the sum of two 32-byte scalars modulo the group order, as 32 bytes |
| ChildKeys.ChildNumberInjective | packages/keys/src/derivation.ts:232-240 | the four bytes determine index and hardening for indices below 2^31 |
| ChildKeys.NumberSpells | packages/keys/src/derivation.ts:232-240 | the first of the four bytes is at least 128 exactly when the segment is hardened, and the number of the four modulo 2^31 is its index |
| ChildKeys.ChildDataInjective | packages/keys/src/derivation.ts:222-240 | two children hash the same data if and only if segment and key material agree |
| ChildKeys.DerivePath | packages/keys/src/derivation.ts:94-116 | the loop over segments equals stepwise derivation, errors included |
| ChildKeys.DescendConcat | packages/keys/src/derivation.ts:102-106 | deriving along a path is deriving along its halves in turn |
| ChildKeys.KeyIsSum | packages/keys/src/derivation.ts:102-106 | after any non-empty path the key is (start + all left halves) modulo the group order, untruncated in 32 bytes |
| ChildKeys.DerivedKeyIsSum | packages/keys/src/derivation.ts:94-116 | the same for the key handed out, which is always a scalar of the curve |
| ChildKeys.DescendFailsIff | packages/keys/src/derivation.ts:215-230 | derivation fails if and only if a normal step meets a key without a public key |
| StandardKeys.HashIsStandard | packages/keys/src/derivation.ts:220-242 | the data hashed for a child is that of BIP-32, section "Private parent key to private child key", with the child number from 2^31 on for hardened children |
| StandardKeys.MasterIsStandard | packages/keys/src/derivation.ts:97-100 | the master key is the left half under the key "Bitcoin seed", and is the standard's exactly when it is a scalar |
| StandardKeys.ChildIsStandardIff | packages/keys/src/derivation.ts:246-255 | from a scalar the child is the one of BIP-32 if and only if the left half is below the order and the reduced sum is not zero; otherwise the standard has none and the code goes on |
| StandardKeys.DescendIsStandardIff | packages/keys/src/derivation.ts:102-106 | along a path from a scalar, the key is the standard's if and only if no step on the way is discarded |
| StandardKeys.DeriveIsStandardIff | packages/keys/src/derivation.ts:94-116 | the same for the whole derivation, whose master key must be a scalar too |
| ChildKeys.EvmKey | packages/keys/src/derivation.ts:125-140 | the EVM key sits at the intended node; an index out of range is refused |
| StandardKeys.EvmKeyIsStandard | packages/keys/src/derivation.ts:125-140 | the EVM key of an index is the standard's at 44', 60', 0', 0, index, wherever the standard has one |
| ChildKeys.DeriveEd25519Path | packages/keys/src/derivation.ts:258-294 | the Ed25519 loop equals its stepwise derivation |
| ChildKeys.EdIgnoresMarks | packages/keys/src/derivation.ts:273-288 | only the indices of a path matter |
| ChildKeys.Ed25519Key | packages/keys/src/derivation.ts:149-162 | a 32-byte signing key at the intended node, if and only if the index is in range |
| StandardKeys.EdDescendIsStandardIff | packages/keys/src/derivation.ts:266-291 | along a path the Ed25519 node is that of SLIP-0010 exactly when every segment is marked as hardened; otherwise it is the one the marks would give |
| StandardKeys.Ed25519KeyIsStandard | packages/keys/src/derivation.ts:149-162 | the Ed25519 key of an index is that of SLIP-0010 at 44', 501', index', 0' |
| InviteEvents.RequestKeyInjective | packages/cli/src/invite-host-listener.ts:104-114 | two requests share a key if and only if one sender uses one invite, structured or not |
| InviteEvents.FormsShareKey | packages/cli/src/invite-host-listener.ts:104-114 | a structured and a plain request of one sender for one invite share their key; only an empty or unreadable one has none |
| InviteOutcomes.CandidateIff | packages/cli/src/invite-host-listener.ts:137-150 | which events are candidates: never a historical one, every structured one, and plain text of fifty UTF-16 units without a space |
| InviteOutcomes.RetryableCategories | packages/cli/src/invite-host-listener.ts:156-162 | of all error categories, those that may pass are all but validation, permission and auth |
| InviteEvents.Dispatch | packages/cli/src/invite-host-listener.ts:182-248 | the first identity that accepts wins; otherwise the last error is returned, and a retry is wanted if and only if some identity was not ready or failed transiently |
| InviteScan.KeepPage | packages/cli/src/invite-host-listener.ts:284-298 | one page, oldest message first, with the skips and the preference for structured events |
| InviteScan.ScanClient | packages/cli/src/invite-host-listener.ts:265-305 | the paging loop terminates on every listing and equals the recursive pass |
| InviteScan.Scan | packages/cli/src/invite-host-listener.ts:250-312 | messages and retry flag of the whole scan, under any changes to the processed sets between pages |
| InviteScan.ShownIff | packages/cli/src/invite-host-listener.ts:267-305 | paging shows every message once if and only if no two messages with one time stamp face each other across a page boundary; otherwise some are lost |
| InviteScan.FailureCuts | packages/cli/src/invite-host-listener.ts:271-281 | a page that cannot be fetched cuts the listing there; it asks for a retry exactly if the pass comes that far and the conversation is not just unknown |
| InviteScan.ScanRetryIff | packages/cli/src/invite-host-listener.ts:261-281 | a scan asks for a retry exactly when some client meets a failure that may pass |
| InviteScan.ScanSeesAll | packages/cli/src/invite-host-listener.ts:261-306 | under that condition and without failures, every message of every client is looked at once and no retry is asked for |
| InviteScan.ChoiceSnoc | packages/cli/src/invite-host-listener.ts:116-135 | preferring step by step keeps the first structured event, or else the first |
| InviteScan.KeepChooses | packages/cli/src/invite-host-listener.ts:284-298 | what the map holds for each key, and in which order |
| InviteScan.ScanSees | packages/cli/src/invite-host-listener.ts:271-289 | each message is judged by what had been processed when its page arrived |
| InviteScan.OneEventPerRequest | packages/cli/src/invite-host-listener.ts:250-312 | whatever is processed between two pages: every message looked at once, and exactly one event per request that was open when one of its messages was, structured whenever one of those is |
| InviteScan.OpenThroughout | packages/cli/src/invite-host-listener.ts:284-298 | no request is missed that is open at every page of the scan |
| InviteScan.FoundWasOpen | packages/cli/src/invite-host-listener.ts:284-298 | whatever is reported was open at some page of the scan |
| InviteScan.TiedLosesOne | packages/cli/src/invite-host-listener.ts:300-304 | a listing of eleven candidates of one moment, of which the eleventh is never looked at |
| InviteShared.AcceptKeeps | packages/cli/src/invite-host-listener.ts:432-441 | marking a key replaces its timer, so keys and timers go on agreeing |
| InviteShared.StoppedKeeps | packages/cli/src/invite-host-listener.ts:510-518 | after stopping no timer is armed |
| InviteRuns.StepKeepsInv | packages/cli/src/invite-host-listener.ts:314-519 | every uninterrupted stretch of every invocation, every event and every timer keeps the invariant |
| InviteRuns.RunKeepsInv | packages/cli/src/invite-host-listener.ts:314-519 | so does every interleaving |
| InviteLaws.EveryInterleaving | packages/cli/src/invite-host-listener.ts:323-386 | safety over every interleaving: at most one dispatch in flight per message and per request, no leaked in-flight mark, keys are those with a timer until stopped, one retry timer per conversation; that requests are served is in the rows of `InviteOutcomes` |
| InviteLaws.MessageServedOnce | packages/cli/src/invite-host-listener.ts:349-363 | no message is served successfully twice in a whole run |
| InviteLaws.RequestServedOnce | packages/cli/src/invite-host-listener.ts:432-441 | between two successes for one request its key was forgotten by its timer |
| InviteLaws.RunFair | packages/cli/src/invite-host-listener.ts:323-363 | no success in a run repeats a processed message or a remembered key |
| InviteLaws.RoundsBounded | packages/cli/src/invite-host-listener.ts:470-483 | for each conversation, each retry uses up the recovery that armed it |
| InviteLaws.RetriesBounded | packages/cli/src/invite-host-listener.ts:470-483 | no conversation is scanned in any round more often than it was joined |
| InviteLaws.NoFourthRetry | packages/cli/src/invite-host-listener.ts:470-476 | no scan is ever a fourth retry |
| InviteLaws.WishArises | packages/cli/src/invite-host-listener.ts:453-468 | a scan that failed for now, or a dispatch that may succeed later, makes its recovery want a retry |
| InviteLaws.WantedRetryArmed | packages/cli/src/invite-host-listener.ts:453-483 | a recovery below the limit that wants a retry does not end, other than by an exception, without a retry for its conversation being armed at the moment it ends |
| InviteLaws.NeverStuck | packages/cli/src/invite-host-listener.ts:443-484 | every invocation can be taken further itself, by an action that is no exception |
| InviteLaws.CanFinish | packages/cli/src/invite-host-listener.ts:314-484 | every invocation can be brought to its end by such actions alone |
| InviteOutcomes.AdmitsIffOpen | packages/cli/src/invite-host-listener.ts:323-335 | the four checks let through exactly the requests that are neither processed nor being served by an invocation |
| InviteOutcomes.ArriveDecides | packages/cli/src/invite-host-listener.ts:486-499 | a live message starts a dispatch exactly when the listener is subscribed, it is a candidate and its request is open; otherwise nothing changes |
| InviteOutcomes.LiveRequestServed | packages/cli/src/invite-host-listener.ts:314-386 | such a message is being dispatched from its arrival until that dispatch returns, whatever else happens; when it succeeds, the message is processed for the rest of the run and its key until a timer forgets it |
| InviteOutcomes.ScanStarts | packages/cli/src/invite-host-listener.ts:478-504 | a joined conversation starts a scan of round 0, a firing retry one of the next round, and nothing else does |
| InviteOutcomes.ScanHandsOver | packages/cli/src/invite-host-listener.ts:447-455 | a scan that ends hands its recovery every message it found |
| InviteOutcomes.ProceedDecides | packages/cli/src/invite-host-listener.ts:455-468 | a recovery takes its messages in turn: an open request is dispatched, any other passed over |
| InviteOutcomes.EveryMessageHasItsTurn | packages/cli/src/invite-host-listener.ts:443-468 | every message a recovery has before it comes to its turn before the recovery ends, unless an exception ends it, and is dispatched then if its request is open |
| InviteOutcomes.RecoveryEnds | packages/cli/src/invite-host-listener.ts:470-483 | a recovery without messages ends, and arms a retry of its round exactly when it wants one, is below the limit and none is armed for its conversation |
| InviteOutcomes.SettleDecides | packages/cli/src/invite-host-listener.ts:342-386 | only a success is recorded; after a failure that may pass, or none, the request is open again |
| InviteOutcomes.CallbackDecides | packages/cli/src/invite-host-listener.ts:354-385 | once its callback returned, an invocation serves its message no more; a live one ends, a recovery goes on |
| InviteStop.StopIsFinalIff | packages/cli/src/invite-host-listener.ts:510-518 | after stopping nothing more can happen if and only if no invocation is under way |
| InviteStop.StopLeavesRunning | packages/cli/src/invite-host-listener.ts:478-483 | a run in which a retry is armed after stopping |
| InviteStop.ArmsAfterStopIff | packages/cli/src/invite-host-listener.ts:510-518 | after stopping some run arms a timer if and only if an invocation under way scans, or dispatches a request with a key, or is a recovery that can still want a retry below the limit or has an unserved message to come that has a key or a round below the limit |
| InviteStop.RunSilent | packages/cli/src/invite-host-listener.ts:432-483 | if none is of that kind, none ever becomes so and no timer is ever armed |
| InviteStop.MayArmArms | packages/cli/src/invite-host-listener.ts:432-483 | one of that kind can be brought to arm a timer |
| InviteHost.Listener.Begin | packages/cli/src/invite-host-listener.ts:323-340 | the four checks and the in-flight marks, as one stretch |
| InviteHost.Listener.End | packages/cli/src/invite-host-listener.ts:380-385 | the `finally` block |
| InviteHost.Listener.AcceptJoin | packages/cli/src/invite-host-listener.ts:349-353 | what a success marks as processed |
| InviteHost.Listener.MarkInviteKeyProcessed | packages/cli/src/invite-host-listener.ts:432-441 | key, old timer, new timer |
| InviteHost.Listener.FinishRecovery | packages/cli/src/invite-host-listener.ts:470-483 | when a retry is armed |
| InviteHost.Listener.OnTimer | packages/cli/src/invite-host-listener.ts:435-438 | what a firing timer forgets, and which round of scanning it starts |
| InviteHost.Listener.Close | packages/cli/src/invite-host-listener.ts:510-518 | both loops clear every timer and leave the sets as they are |

## Left out

- Overlapping calls on one seal manager: each call is one transition. The source awaits signer and publisher between the revoked check and the store, and overlapping calls can break the stated invariants. Overlapping credential calls are covered by `CredentialFlow`.
- `setCredentialStatus` (packages/sessions/src/credential-manager.ts:489-499): it may set any status, so it is not a step of the store.
- The status `revoked` as a final label: a token lookup can relabel a revoked record as expired, so the law says that a record that left `active` never returns to it.
- Reveal states, mutation hooks, the heartbeat staleness query and credential listing: they change nothing that is modelled.
- The seal manager's `list`, `lookup` and `needsRenewal`: filters and one comparison.
- Payload schema checks beyond the shape of identifiers are a predicate parameter; signer, publisher, resolver, clock and identifier generator appear as the values they returned.
- UTF-8 encoding of the canonical text, lone surrogates, and numbers that are not finite: text is a sequence of Unicode scalar values and a number is its decimal text.
- The comparator that sorts flipped scopes never answers zero (packages/seals/src/chain-validator.ts:106-109); the model sorts stably by scope, which agrees because a recomputed delta has no repeated scope and any mismatch is rejected either way.
- The runtime's string hash and locale comparison are parameters of the credential store; the human-readable reason of a material change is not built.
- The clock is read once per call, where the source reads it up to three times within a call.
- HMAC-SHA512, SHA-256, PBKDF2, Keccak and point multiplication are parameters or absent; the checksum byte, the entropy and the wordlist are given. The EVM address and `mnemonicToSeed` are not modelled.
- Mnemonic.ExtractBits: windows of up to 31 bits, where the source documents 16 and uses 11; beyond 31 the source's 32-bit shifts wrap around.
- Path segments with so many digits that the source's number type rounds them: both reject them, as they exceed the limit.
- Trimming, lower-casing and content decoding of an invite message: an event carries the trimmed text or invite slug and the lower-cased sender.
- Time stamps are integers; a listing is newest first and `before` is strict. A listing that ignored `before` could keep the source's loop going for ever.
- How long dispatches, callbacks and scans take: their outcomes are chosen freely, so the laws of the listener are about order, not about time.
- A scan's messages enter the listener's transition system as an arbitrary list of candidates, which covers every list the scan can return.
- Exceptions from the invite scan or dispatch end their invocation; what the runtime does with an unhandled rejection is not part of this model.
- WebSocket, MCP, HTTP, CLI, admin socket and SQLite code, action specifications and identifier resolvers are not part of this model.
