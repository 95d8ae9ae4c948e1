/** What issuing and updating through the service, and the scope-update action,
    come to: which scopes are asked for, when they are granted, and what happens
    otherwise. */
module ServiceOutcomes {
  import opened Prelude
  import opened Scopes
  import opened PolicyHash
  import opened ScopeMateriality
  import opened CredentialStore
  import opened CredentialRuns
  import opened CredentialLaws
  import opened CredentialService
  import opened CredentialFlow
  import opened CredentialOutcomes

  predicate Lists(list: Option<seq<Scope>>, x: Scope) { list.Some? && x in list.value }

  /** Allowed by the policy or inline, and denied by neither. */
  predicate AskedThrough(policy: ScopeSet, allow: Option<seq<Scope>>, deny: Option<seq<Scope>>, x: Scope) {
    && (x in policy.allow || Lists(allow, x))
    && !(x in policy.deny || Lists(deny, x))
  }

  // ---- Issuing ------------------------------------------------------------

  /** What a request to the service asks for, through a policy or without one. */
  predicate RequestAsks(q: Request, policy: Option<ScopeSet>, x: Scope) {
    if policy.Some? then AskedThrough(policy.value, q.allow, q.deny, x) else Lists(q.allow, x) && !Lists(q.deny, x)
  }

  /** The request that reaches the manager. */
  function Passed(q: Request, policy: Option<ScopeSet>): Request {
    if policy.Some? then Merged(q, policy.value) else q
  }

  /** Merging a policy into a request changes the two lists only, and asks for
      what the policy and the request ask for together. */
  lemma MergedAsks(q: Request, policy: Option<ScopeSet>, x: Scope)
    ensures Passed(q, policy) == q.(allow := Passed(q, policy).allow, deny := Passed(q, policy).deny)
    ensures x in OrEmpty(Passed(q, policy).allow) && x !in OrEmpty(Passed(q, policy).deny) <==> RequestAsks(q, policy, x)
  {
  }

  /** The record grants what the request asks for, and nothing else. */
  ghost predicate GrantsAsked(r: Record, q: Request, policy: Option<ScopeSet>) {
    forall x :: x in r.resolvedScopes <==> RequestAsks(q, policy, x)
  }

  lemma NewGrants(s: Store, cfg: Config, q: Request, policy: Option<ScopeSet>, now: int)
    requires Inv(s, cfg, now) && cfg.maxConcurrentPerOperator >= 1 && IsFresh(s, q)
    requires Issue(s, cfg, Passed(q, policy), now).1.credentialId !in s.byId
    ensures GrantsAsked(Issue(s, cfg, Passed(q, policy), now).1, q, policy)
  {
    var passed, answer := Passed(q, policy), Issue(s, cfg, Passed(q, policy), now).1;
    IssueDecides(s, cfg, passed, now);
    assert AsRequested(answer, cfg, passed, now);
    forall x
      ensures x in answer.resolvedScopes <==> RequestAsks(q, policy, x)
    {
      MergedAsks(q, policy, x);
    }
  }

  ghost predicate NoCollisions(hash: string -> string) { forall a, b :: hash(a) == hash(b) ==> a == b }

  /** Records with one policy text grant the same. */
  lemma SameTextSameGrants(a: ScopeSet, c: seq<string>, b: ScopeSet, d: seq<string>, collate: Collation)
    requires CanonicalPolicy(a, c, collate) == CanonicalPolicy(b, d, collate)
    ensures Resolved(a) == Resolved(b)
  {
    CanonicalPolicyOnlyIf(a, c, b, d, collate);
    assert forall x :: x in a.allow <==> x in multiset(a.allow);
    assert forall x :: x in b.allow <==> x in multiset(b.allow);
    assert forall x :: x in a.deny <==> x in multiset(a.deny);
    assert forall x :: x in b.deny <==> x in multiset(b.deny);
  }

  lemma TwinGrants(s: Store, cfg: Config, q: Request, policy: Option<ScopeSet>, now: int, id: string)
    requires Derived(s, cfg, now) && NoCollisions(cfg.hash) && IsTwin(s, cfg, Passed(q, policy), id)
    ensures GrantsAsked(s.byId[id], q, policy)
  {
    var passed, r := Passed(q, policy), s.byId[id];
    assert RecordDerived(cfg, r, now);
    SameTextSameGrants(r.effectiveScopes, r.chatIds, RequestedScopes(passed), passed.chatIds, cfg.collate);
    forall x
      ensures x in r.resolvedScopes <==> RequestAsks(q, policy, x)
    {
      MergedAsks(q, policy, x);
    }
  }

  /** With a hash that does not collide, also the answer that is an older
      credential grants just what was asked for. */
  lemma AnyGrants(s: Store, cfg: Config, q: Request, policy: Option<ScopeSet>, now: int)
    requires Inv(s, cfg, now) && cfg.maxConcurrentPerOperator >= 1 && IsFresh(s, q) && NoCollisions(cfg.hash)
    ensures GrantsAsked(Issue(s, cfg, Passed(q, policy), now).1, q, policy)
  {
    var passed := Passed(q, policy);
    IssueDecides(s, cfg, passed, now);
    if HasTwin(s, cfg, passed) {
      TwinGrants(s, cfg, q, policy, now, Issue(s, cfg, passed, now).1.credentialId);
    } else {
      NewGrants(s, cfg, q, policy, now);
    }
  }

  /** The answer is an active, stored credential of the operator. A new one
      grants what was asked; so does every one if hashes do not collide. */
  ghost predicate Serves(s: Store, cfg: Config, q: Request, policy: Option<ScopeSet>, after: Store, r: Record) {
    && r.credentialId in after.byId && after.byId[r.credentialId] == r
    && r.status == Active && r.operatorId == q.operatorId
    && (r.credentialId !in s.byId || NoCollisions(cfg.hash) ==> GrantsAsked(r, q, policy))
  }

  lemma PassedServes(s: Store, cfg: Config, q: Request, policy: Option<ScopeSet>, now: int, after: Store, r: Record)
    requires Inv(s, cfg, now) && IsFresh(s, q) && cfg.maxConcurrentPerOperator >= 1
    requires (after, r) == Issue(s, cfg, Passed(q, policy), now)
    ensures Serves(s, cfg, q, policy, after, r)
  {
    IssueAnswer(s, cfg, Passed(q, policy), now);
    if r.credentialId !in s.byId {
      NewGrants(s, cfg, q, policy, now);
    }
    if NoCollisions(cfg.hash) {
      AnyGrants(s, cfg, q, policy, now);
    }
  }

  lemma SweepKeepsIds(s: Store, cfg: Config, now: int)
    ensures Sweep(s, cfg, now).byId.Keys == s.byId.Keys
    ensures Sweep(s, cfg, now).byToken == s.byToken
  {
  }

  /** The call sweeps, and issues unless its policy is missing. */
  lemma SweptAndPassed(s: Store, cfg: Config, q: Request, policyId: Option<string>, policy: Option<ScopeSet>, now: int, used: Option<ScopeSet>)
    requires used == if policyId.Some? then policy else None
    ensures (ServiceIssue(s, cfg, q, policyId, policy, now), ServiceIssued(s, cfg, q, policyId, policy, now)) ==
      if policyId.Some? && policy.None? then (Sweep(s, cfg, now), Err(PolicyNotFound))
      else var issued := Issue(Sweep(s, cfg, now), cfg, Passed(q, used), now); (issued.0, Ok(issued.1))
  {
  }

  /** Issuing through the service fails exactly when the policy is missing, and
      has then only swept. Otherwise the answer is an active, stored credential
      of the operator. A new one grants what the policy and the request ask for
      together, deny before allow; so does every one if hashes do not collide. */
  lemma ServiceIssueDecides(s: Store, cfg: Config, q: Request, policyId: Option<string>, policy: Option<ScopeSet>, now: int)
    requires Inv(s, cfg, now) && IsFresh(s, q) && cfg.maxConcurrentPerOperator >= 1
    ensures var after, answer := ServiceIssue(s, cfg, q, policyId, policy, now), ServiceIssued(s, cfg, q, policyId, policy, now);
      && (answer.Err? <==> policyId.Some? && policy.None?)
      && (answer.Err? ==> answer.error == PolicyNotFound && after == Sweep(s, cfg, now))
      && (answer.Ok? ==> Serves(s, cfg, q, if policyId.Some? then policy else None, after, answer.value))
  {
    var swept, used := Sweep(s, cfg, now), if policyId.Some? then policy else None;
    SweptAndPassed(s, cfg, q, policyId, policy, now, used);
    if policyId.None? || policy.Some? {
      var (after, r) := Issue(swept, cfg, Passed(q, used), now);
      SweepNarrows(s, cfg, now);
      SweepKeepsIds(s, cfg, now);
      PassedServes(swept, cfg, q, used, now, after, r);
    }
  }

  /** To a credential already there it does what the sweep does, and gives up
      the oldest active one that is left if the operator is still at its limit. */
  lemma ServiceIssueLeaves(s: Store, cfg: Config, q: Request, policyId: Option<string>, policy: Option<ScopeSet>, now: int, id: string)
    requires Inv(s, cfg, now) && IsFresh(s, q) && cfg.maxConcurrentPerOperator >= 1 && id in s.byId
    ensures var swept, after := Sweep(s, cfg, now), ServiceIssue(s, cfg, q, policyId, policy, now);
      && id in swept.byId && id in after.byId
      && after.byId[id] ==
           if (policyId.None? || policy.Some?) && Evicted(swept, cfg, q.operatorId) == Some(id)
           then swept.byId[id].(status := Revoked, revokedAt := Some(now), revocationReason := Some("policy-violation"))
           else swept.byId[id]
  {
    var swept, used := Sweep(s, cfg, now), if policyId.Some? then policy else None;
    SweptAndPassed(s, cfg, q, policyId, policy, now, used);
    SweepKeepsIds(s, cfg, now);
    SweepNarrows(s, cfg, now);
    if policyId.None? || policy.Some? {
      IssueLeaves(swept, cfg, Passed(q, used), now, id);
    }
  }

  /** A call to issue that waited for its policy grants the same. */
  lemma ResumeGrants(s: Store, cfg: Config, q: Request, a: Arrival, now: int)
    requires Inv(s, cfg, now) && IsFresh(s, Named(q, a)) && cfg.maxConcurrentPerOperator >= 1
    ensures var after := SecondPart(s, cfg, WaitIssue(q), a, now);
      && (a.policy.None? ==> after == s)
      && (a.policy.Some? && a.freshId in after.byId ==> GrantsAsked(after.byId[a.freshId], q, a.policy))
      && (a.policy.Some? && a.freshId !in after.byId ==> after.byId.Keys == s.byId.Keys)
  {
    if a.policy.Some? {
      IssueDecides(s, cfg, Passed(Named(q, a), a.policy), now);
      if !HasTwin(s, cfg, Passed(Named(q, a), a.policy)) {
        NewGrants(s, cfg, Named(q, a), a.policy, now);
      }
    }
  }

  // ---- Updating -----------------------------------------------------------

  /** What an update of this record asks for: through a policy, or with the
      given lists in the place of its own. */
  predicate UpdateAsks(r: Record, changes: Changes, policy: Option<ScopeSet>, x: Scope) {
    if changes.policyId.Some? && policy.Some? then AskedThrough(policy.value, changes.allow, changes.deny, x)
    else
      && (if changes.allow.Some? then x in changes.allow.value else x in r.effectiveScopes.allow)
      && !(if changes.deny.Some? then x in changes.deny.value else x in r.effectiveScopes.deny)
  }

  lemma NextAsks(r: Record, changes: Changes, policy: Option<ScopeSet>, x: Scope)
    ensures x in Resolved(NextScopes(r, changes, policy)) <==> UpdateAsks(r, changes, policy, x)
  {
  }

  /** What the guard does to a record when these scopes are asked for. */
  ghost predicate GuardOutcome(s: Store, after: Store, answer: ServiceAnswer, id: string, asks: set<Scope>, now: int)
    requires id in s.byId
  {
    var r := s.byId[id];
    if !(asks <= r.resolvedScopes) then
      && answer == Ok(r.(status := Revoked, revokedAt := Some(now), revocationReason := Some("reauthorization-required")))
      && OnlyRecord(s, after, id, answer.value)
    else if r.status != Active then answer == Err(StoreFault(CredentialExpired)) && after == s
    else
      && answer.Ok? && answer.value.resolvedScopes == asks && answer.value.status == Active
      && OnlyRecord(s, after, id, answer.value)
  }

  lemma GuardOutcomes(s: Store, cfg: Config, id: string, next: ScopeSet, now: int)
    requires Derived(s, cfg, now) && id in s.byId
    ensures var (after, answer) := Guarded(s, cfg, id, next, now);
      GuardOutcome(s, after, Lift(answer), id, Resolved(next), now)
  {
    assert RecordDerived(cfg, s.byId[id], now);
    MaterialityMeaning(s.byId[id].effectiveScopes, next);
    RevokeDecides(s, id, REAUTHORIZE, now);
    RescopeDecides(s, cfg, id, next);
  }

  /** An update is refused for these reasons, in this order, and then changes
      nothing; one that asks for no change is answered with the record. */
  lemma UpdateRefuses(s: Store, cfg: Config, id: string, changes: Changes, policy: Option<ScopeSet>, now: int)
    ensures var (after, answer) := Update(s, cfg, id, changes, policy, now);
      && (id !in s.byId ==> answer == Err(StoreFault(NotFound)) && after == s)
      && (id in s.byId && !Supported(changes) ==> answer == Err(Unsupported) && after == s)
      && (id in s.byId && Supported(changes) && changes.allow.None? && changes.deny.None? && changes.policyId.None? ==>
            answer == Ok(s.byId[id]) && after == s)
      && (id in s.byId && Supported(changes) && changes.policyId.Some? && policy.None? ==>
            answer == Err(PolicyNotFound) && after == s)
  {
  }

  /** Any other update goes through the guard with the scopes it asks for: the
      credential is revoked if one of them is new to it, and otherwise, if it is
      active, from then on grants these and no others. */
  lemma UpdateDecides(s: Store, cfg: Config, id: string, changes: Changes, policy: Option<ScopeSet>, now: int, asks: set<Scope>)
    requires Derived(s, cfg, now) && id in s.byId && Supported(changes)
    requires changes.allow.Some? || changes.deny.Some? || changes.policyId.Some?
    requires changes.policyId.Some? ==> policy.Some?
    requires forall x :: x in asks <==> UpdateAsks(s.byId[id], changes, policy, x)
    ensures var (after, answer) := Update(s, cfg, id, changes, policy, now);
      GuardOutcome(s, after, answer, id, asks, now)
  {
    var next := NextScopes(s.byId[id], changes, policy);
    forall x
      ensures x in asks <==> x in Resolved(next)
    {
      NextAsks(s.byId[id], changes, policy, x);
    }
    assert asks == Resolved(next);
    GuardOutcomes(s, cfg, id, next, now);
  }

  /** What the action does once it has swept. */
  lemma ActionSwept(s: Store, cfg: Config, id: string, scopes: ScopeSet, now: int, swept: Store)
    requires swept == Sweep(s, cfg, now)
    ensures UpdateScopes(s, cfg, id, scopes, now) ==
      if id !in swept.byId then (swept, Err(StoreFault(NotFound)))
      else if swept.byId[id].status != Active then (swept, Err(NotActive))
      else (Guarded(swept, cfg, id, scopes, now).0, Lift(Guarded(swept, cfg, id, scopes, now).1))
  {
  }

  /** An active credential that a sweep leaves active. */
  predicate Survives(s: Store, cfg: Config, id: string, now: int) {
    IsActiveIn(s, id) && !Outlived(s.byId[id], now) && !FellSilent(cfg, s.byId[id], now)
  }

  lemma SweptActive(s: Store, cfg: Config, id: string, now: int, swept: Store)
    requires swept == Sweep(s, cfg, now)
    ensures id in swept.byId <==> id in s.byId
    ensures IsActiveIn(swept, id) <==> Survives(s, cfg, id, now)
  {
    SweepKeepsIds(s, cfg, now);
    if id in s.byId {
      SweepDecides(s, cfg, now, id);
    }
  }

  /** The scope-update action sweeps, refuses a credential that is missing or
      no longer active, and otherwise goes through the same guard. */
  lemma ActionDecides(s: Store, cfg: Config, id: string, scopes: ScopeSet, now: int, swept: Store)
    requires Inv(s, cfg, now) && cfg.maxConcurrentPerOperator >= 1 && swept == Sweep(s, cfg, now)
    ensures var (after, answer) := UpdateScopes(s, cfg, id, scopes, now);
      && (id !in s.byId ==> answer == Err(StoreFault(NotFound)) && after == swept)
      && (id in s.byId && !Survives(s, cfg, id, now) ==> answer == Err(NotActive) && after == swept)
      && (Survives(s, cfg, id, now) ==>
            id in swept.byId && GuardOutcome(swept, after, answer, id, (set x | x in scopes.allow && x !in scopes.deny), now))
  {
    ActionSwept(s, cfg, id, scopes, now, swept);
    SweptActive(s, cfg, id, now, swept);
    if Survives(s, cfg, id, now) {
      assert Derived(swept, cfg, now) by {
        SweepNarrows(s, cfg, now);
      }
      GuardOutcomes(swept, cfg, id, scopes, now);
      assert Resolved(scopes) == set x | x in scopes.allow && x !in scopes.deny;
    }
  }
}
