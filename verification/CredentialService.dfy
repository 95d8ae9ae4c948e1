/** The service and the scope-update action above the credential manager. Both
    refuse to widen a live credential: a request that would is answered by
    revoking the credential instead. */
module CredentialService {
  import opened Prelude
  import opened Scopes
  import opened ScopeMateriality
  import opened CredentialStore
  import opened CredentialRuns
  import opened CredentialLaws
  import Manager = CredentialManager

  /** The fields a caller may try to change. */
  datatype Changes = Changes(
    operatorId: Option<string>,
    chatIds: Option<seq<string>>,
    ttlSeconds: Option<int>,
    allow: Option<seq<Scope>>,
    deny: Option<seq<Scope>>,
    policyId: Option<string>)

  datatype ServiceFault = StoreFault(fault: Fault) | Unsupported | PolicyNotFound | NotActive

  type ServiceAnswer = Result<Record, ServiceFault>

  function Lift(a: Answer): ServiceAnswer {
    match a
    case Ok(r) => Ok(r)
    case Err(f) => Err(StoreFault(f))
  }

  const REAUTHORIZE := "reauthorization-required"

  /** Shared guard of the service and the action: revoke what would widen,
      apply everything else in place. */
  function Guarded(s: Store, cfg: Config, id: string, next: ScopeSet, now: int): (Store, Answer) {
    if id !in s.byId then (s, Err(NotFound))
    else if Materiality(s.byId[id].effectiveScopes, next).requiresReauthorization
    then RevokeCredential(s, id, REAUTHORIZE, now)
    else OnActive(s, id, Rescoped(cfg, next))
  }

  /** `policy` is what looking up `changes.policyId` returned. */
  function Update(s: Store, cfg: Config, id: string, changes: Changes, policy: Option<ScopeSet>, now: int): (Store, ServiceAnswer) {
    if id !in s.byId then (s, Err(StoreFault(NotFound)))
    else if changes.operatorId.Some? || changes.chatIds.Some? || changes.ttlSeconds.Some? then (s, Err(Unsupported))
    else if changes.allow.None? && changes.deny.None? && changes.policyId.None? then (s, Ok(s.byId[id]))
    else if changes.policyId.Some? && policy.None? then (s, Err(PolicyNotFound))
    else
      var (after, answer) := Guarded(s, cfg, id, NextScopes(s.byId[id], changes, policy), now);
      (after, Lift(answer))
  }

  function NextScopes(r: Record, changes: Changes, policy: Option<ScopeSet>): ScopeSet {
    if changes.policyId.Some? && policy.Some? then ResolvePolicy(policy.value, changes.allow, changes.deny)
    else ScopeSet(if changes.allow.Some? then changes.allow.value else r.effectiveScopes.allow,
                  if changes.deny.Some? then changes.deny.value else r.effectiveScopes.deny)
  }

  /** The `credential.updateScopes` action; its lookup sweeps first. */
  function UpdateScopes(s: Store, cfg: Config, id: string, scopes: ScopeSet, now: int): (Store, ServiceAnswer) {
    var swept := Sweep(s, cfg, now);
    if id !in swept.byId then (swept, Err(StoreFault(NotFound)))
    else if swept.byId[id].status != Active then (swept, Err(NotActive))
    else
      var (after, answer) := Guarded(swept, cfg, id, scopes, now);
      (after, Lift(answer))
  }

  /** Issuing through the service: sweep, resolve the policy, then issue. A
      failed policy lookup leaves only the sweep. */
  function ServiceIssue(s: Store, cfg: Config, r: Request, policyId: Option<string>, policy: Option<ScopeSet>, now: int): Store {
    var swept := Sweep(s, cfg, now);
    if policyId.None? then Issue(swept, cfg, r, now).0
    else if policy.None? then swept
    else Issue(swept, cfg, Merged(r, policy.value), now).0
  }

  function ServiceIssued(s: Store, cfg: Config, r: Request, policyId: Option<string>, policy: Option<ScopeSet>, now: int): ServiceAnswer {
    var swept := Sweep(s, cfg, now);
    if policyId.None? then Ok(Issue(swept, cfg, r, now).1)
    else if policy.None? then Err(PolicyNotFound)
    else Ok(Issue(swept, cfg, Merged(r, policy.value), now).1)
  }

  function Merged(r: Request, policy: ScopeSet): Request {
    var scopes := ResolvePolicy(policy, r.allow, r.deny);
    r.(allow := Some(scopes.allow), deny := Some(scopes.deny))
  }

  // ---- Runs --------------------------------------------------------------

  datatype ServiceOp =
    | SvcIssue(request: Request, policyId: Option<string>, policy: Option<ScopeSet>)
    | SvcSweep
    | SvcLookupByToken(token: string)
    | SvcRevoke(id: string, reason: string)
    | SvcUpdate(id: string, changes: Changes, policy: Option<ScopeSet>)
    | SvcRenew(id: string)
    | ActUpdateScopes(id: string, scopes: ScopeSet)

  datatype ServiceCall = ServiceCall(op: ServiceOp, now: int)

  /** Listing and looking up only sweep. */
  function ServiceStep(s: Store, cfg: Config, call: ServiceCall): Store {
    match call.op
    case SvcIssue(r, policyId, policy) => ServiceIssue(s, cfg, r, policyId, policy, call.now)
    case SvcSweep => Sweep(s, cfg, call.now)
    case SvcLookupByToken(token) => GetByToken(s, token, call.now).0
    case SvcRevoke(id, reason) => RevokeCredential(s, id, reason, call.now).0
    case SvcUpdate(id, changes, policy) => Update(s, cfg, id, changes, policy, call.now).0
    case SvcRenew(id) => Renew(s, cfg, id, call.now).0
    case ActUpdateScopes(id, scopes) => UpdateScopes(s, cfg, id, scopes, call.now).0
  }

  function ServiceRun(s: Store, cfg: Config, calls: seq<ServiceCall>): Store
    decreases |calls|
  {
    if calls == [] then s else ServiceRun(ServiceStep(s, cfg, calls[0]), cfg, calls[1..])
  }

  predicate SaneService(s: Store, call: ServiceCall, clock: int) {
    clock <= call.now && (call.op.SvcIssue? ==> IsFresh(s, call.op.request))
  }

  predicate SaneServiceRun(s: Store, cfg: Config, calls: seq<ServiceCall>, clock: int)
    decreases |calls|
  {
    calls == [] || (SaneService(s, calls[0], clock) && SaneServiceRun(ServiceStep(s, cfg, calls[0]), cfg, calls[1..], calls[0].now))
  }

  function ServiceClock(calls: seq<ServiceCall>, clock: int): int {
    if calls == [] then clock else calls[|calls| - 1].now
  }

  // ---- Scopes never widen ------------------------------------------------

  /** Every credential is still there and may do no more than before. */
  ghost predicate Narrows(s: Store, s': Store) {
    forall id :: id in s.byId ==> id in s'.byId && s'.byId[id].resolvedScopes <= s.byId[id].resolvedScopes
  }

  lemma NarrowsTransitive(a: Store, b: Store, c: Store)
    requires Narrows(a, b) && Narrows(b, c)
    ensures Narrows(a, c)
  {
    forall id | id in a.byId
      ensures id in c.byId && c.byId[id].resolvedScopes <= a.byId[id].resolvedScopes
    {
      assert id in b.byId && b.byId[id].resolvedScopes <= a.byId[id].resolvedScopes;
    }
  }

  /** The guard, exactly: a request that would add a permission leaves the
      scopes as they were and the credential revoked; any other request to an
      active credential takes effect and grants just what was asked. */
  lemma GuardDecides(s: Store, cfg: Config, id: string, next: ScopeSet, now: int)
    requires Derived(s, cfg, now) && id in s.byId
    ensures var r := s.byId[id];
      var r' := Guarded(s, cfg, id, next, now).0.byId[id];
      && (!(Resolved(next) <= r.resolvedScopes) ==>
            r'.status == Revoked && r'.effectiveScopes == r.effectiveScopes && r'.resolvedScopes == r.resolvedScopes)
      && (Resolved(next) <= r.resolvedScopes && r.status == Active ==>
            r'.status == Active && r'.effectiveScopes == next && r'.resolvedScopes == Resolved(next))
      && (Resolved(next) <= r.resolvedScopes && r.status != Active ==> r' == r)
      && r'.resolvedScopes <= r.resolvedScopes
      && forall other :: other in s.byId && other != id ==> Guarded(s, cfg, id, next, now).0.byId[other] == s.byId[other]
  {
    assert RecordDerived(cfg, s.byId[id], now);
    MaterialityMeaning(s.byId[id].effectiveScopes, next);
  }

  lemma NarrowsReflexive(s: Store)
    ensures Narrows(s, s)
  {
  }

  /** A replaced record may do no more than the one it replaces. */
  lemma ReplaceNarrows(s: Store, id: string, r: Record)
    requires id in s.byId && r.resolvedScopes <= s.byId[id].resolvedScopes
    ensures Narrows(s, s.(byId := s.byId[id := r]))
  {
  }

  lemma CallKeepsInv(s: Store, cfg: Config, op: Op, now: int, after: Store)
    requires Inv(s, cfg, now) && cfg.maxConcurrentPerOperator >= 1 && !op.IssueOp?
    requires after == Step(s, cfg, Call(op, now))
    ensures Inv(after, cfg, now)
  {
    StepKeepsInv(s, cfg, Call(op, now), now);
  }

  lemma RevokeNarrows(s: Store, cfg: Config, id: string, reason: string, now: int)
    requires Inv(s, cfg, now) && cfg.maxConcurrentPerOperator >= 1
    ensures Inv(RevokeCredential(s, id, reason, now).0, cfg, now)
    ensures Narrows(s, RevokeCredential(s, id, reason, now).0)
  {
    CallKeepsInv(s, cfg, RevokeOp(id, reason), now, RevokeCredential(s, id, reason, now).0);
    if id in s.byId {
      ReplaceNarrows(s, id, AsRevoked(s.byId[id], reason, now));
    } else {
      NarrowsReflexive(s);
    }
  }

  lemma RenewNarrows(s: Store, cfg: Config, id: string, now: int)
    requires Inv(s, cfg, now) && cfg.maxConcurrentPerOperator >= 1
    ensures Inv(Renew(s, cfg, id, now).0, cfg, now) && Narrows(s, Renew(s, cfg, id, now).0)
  {
    CallKeepsInv(s, cfg, RenewOp(id), now, Renew(s, cfg, id, now).0);
    if Renew(s, cfg, id, now).0 == s {
      NarrowsReflexive(s);
    } else {
      ReplaceNarrows(s, id, Renewed(now)(s.byId[id]));
    }
  }

  lemma GetByTokenNarrows(s: Store, token: string, now: int)
    ensures Narrows(s, GetByToken(s, token, now).0)
  {
    if GetByToken(s, token, now).0 == s {
      NarrowsReflexive(s);
    } else {
      var id := s.byToken[token];
      ReplaceNarrows(s, id, s.byId[id].(status := Expired));
    }
  }

  lemma SweepNarrows(s: Store, cfg: Config, now: int)
    requires Inv(s, cfg, now) && cfg.maxConcurrentPerOperator >= 1
    ensures Inv(Sweep(s, cfg, now), cfg, now) && Narrows(s, Sweep(s, cfg, now))
  {
    CallKeepsInv(s, cfg, SweepOp, now, Sweep(s, cfg, now));
    SweepKeepsScopes(s, cfg, now);
  }

  lemma SweepKeepsScopes(s: Store, cfg: Config, now: int)
    ensures Narrows(s, Sweep(s, cfg, now))
  {
  }

  /** Scopes the guard lets through only narrow the record they replace. */
  lemma RescopeNarrows(s: Store, cfg: Config, id: string, next: ScopeSet)
    requires id in s.byId && Resolved(next) <= s.byId[id].resolvedScopes
    ensures Narrows(s, OnActive(s, id, Rescoped(cfg, next)).0)
  {
    if s.byId[id].status == Active {
      ReplaceNarrows(s, id, Rescoped(cfg, next)(s.byId[id]));
    } else {
      NarrowsReflexive(s);
    }
  }

  lemma GuardAllows(s: Store, cfg: Config, id: string, next: ScopeSet, now: int)
    requires Derived(s, cfg, now) && id in s.byId
    requires !Materiality(s.byId[id].effectiveScopes, next).requiresReauthorization
    ensures Resolved(next) <= s.byId[id].resolvedScopes
  {
    assert RecordDerived(cfg, s.byId[id], now);
    MaterialityMeaning(s.byId[id].effectiveScopes, next);
  }

  lemma RescopeKeepsInv(s: Store, cfg: Config, id: string, next: ScopeSet, now: int)
    requires Inv(s, cfg, now) && cfg.maxConcurrentPerOperator >= 1
    ensures Inv(OnActive(s, id, Rescoped(cfg, next)).0, cfg, now)
  {
    CallKeepsInv(s, cfg, UpdateScopesOp(id, next), now, OnActive(s, id, Rescoped(cfg, next)).0);
  }

  lemma GuardedKeepsInv(s: Store, cfg: Config, id: string, next: ScopeSet, now: int)
    requires Inv(s, cfg, now) && cfg.maxConcurrentPerOperator >= 1
    ensures Inv(Guarded(s, cfg, id, next, now).0, cfg, now)
  {
    var after := Guarded(s, cfg, id, next, now).0;
    RevokeNarrows(s, cfg, id, REAUTHORIZE, now);
    RescopeKeepsInv(s, cfg, id, next, now);
    assert after == s || after == RevokeCredential(s, id, REAUTHORIZE, now).0 || after == OnActive(s, id, Rescoped(cfg, next)).0;
  }

  lemma GuardedNarrows(s: Store, cfg: Config, id: string, next: ScopeSet, now: int)
    requires Inv(s, cfg, now) && cfg.maxConcurrentPerOperator >= 1
    ensures Narrows(s, Guarded(s, cfg, id, next, now).0)
  {
    if id !in s.byId {
      NarrowsReflexive(s);
    } else if Materiality(s.byId[id].effectiveScopes, next).requiresReauthorization {
      RevokeNarrows(s, cfg, id, REAUTHORIZE, now);
    } else {
      GuardAllows(s, cfg, id, next, now);
      RescopeNarrows(s, cfg, id, next);
    }
  }

  lemma IssueNarrows(s: Store, cfg: Config, r: Request, now: int)
    requires Inv(s, cfg, now) && cfg.maxConcurrentPerOperator >= 1 && IsFresh(s, r)
    ensures Inv(Issue(s, cfg, r, now).0, cfg, now) && Narrows(s, Issue(s, cfg, r, now).0)
  {
    var s1 := AfterEviction(s, cfg, r.operatorId, now);
    IssueKeepsInv(s, cfg, r, now);
    IssueAnswer(s, cfg, r, now);
    EvictionNarrows(s, cfg, r.operatorId, now);
    if Issue(s, cfg, r, now).0 == s1 {
    } else {
      UpsertNarrows(s1, Fresh(cfg, r, now));
      NarrowsTransitive(s, s1, Upsert(s1, Fresh(cfg, r, now)));
    }
  }

  lemma UpsertNarrows(s: Store, r: Record)
    requires r.credentialId !in s.byId
    ensures Narrows(s, Upsert(s, r))
  {
  }

  lemma EvictionNarrows(s: Store, cfg: Config, operatorId: string, now: int)
    ensures Narrows(s, AfterEviction(s, cfg, operatorId, now))
    ensures AfterEviction(s, cfg, operatorId, now).byId.Keys == s.byId.Keys
  {
    var evicted := Evicted(s, cfg, operatorId);
    if evicted.Some? && evicted.value in s.byId {
      ReplaceNarrows(s, evicted.value, AsRevoked(s.byId[evicted.value], "policy-violation", now));
    } else {
      NarrowsReflexive(s);
    }
  }

  lemma ServiceIssueNarrows(s: Store, cfg: Config, r: Request, policyId: Option<string>, policy: Option<ScopeSet>, now: int)
    requires Inv(s, cfg, now) && cfg.maxConcurrentPerOperator >= 1 && IsFresh(s, r)
    ensures Inv(ServiceIssue(s, cfg, r, policyId, policy, now), cfg, now)
    ensures Narrows(s, ServiceIssue(s, cfg, r, policyId, policy, now))
  {
    var swept := Sweep(s, cfg, now);
    SweepNarrows(s, cfg, now);
    if policyId.None? {
      IssueNarrows(swept, cfg, r, now);
      NarrowsTransitive(s, swept, Issue(swept, cfg, r, now).0);
    } else if policy.Some? {
      IssueNarrows(swept, cfg, Merged(r, policy.value), now);
      NarrowsTransitive(s, swept, Issue(swept, cfg, Merged(r, policy.value), now).0);
    }
  }

  /** Either entry point leaves the store alone, apart from the sweep, or does
      what the guard does. */
  lemma UpdateIsGuarded(s: Store, cfg: Config, id: string, changes: Changes, policy: Option<ScopeSet>, now: int)
    returns (next: ScopeSet)
    ensures Update(s, cfg, id, changes, policy, now).0 in {s, Guarded(s, cfg, id, next, now).0}
  {
    next := if id in s.byId then NextScopes(s.byId[id], changes, policy) else ScopeSet([], []);
  }

  lemma UpdateScopesIsGuarded(s: Store, cfg: Config, id: string, scopes: ScopeSet, now: int)
    ensures var swept := Sweep(s, cfg, now);
      UpdateScopes(s, cfg, id, scopes, now).0 in {swept, Guarded(swept, cfg, id, scopes, now).0}
  {
  }

  lemma EitherKeeps(s: Store, a: Store, b: Store, c: Store, cfg: Config, now: int)
    requires c in {a, b} && Inv(a, cfg, now) && Inv(b, cfg, now) && Narrows(s, a) && Narrows(s, b)
    ensures Inv(c, cfg, now) && Narrows(s, c)
  {
  }

  lemma UpdateNarrows(s: Store, cfg: Config, id: string, changes: Changes, policy: Option<ScopeSet>, now: int)
    requires Inv(s, cfg, now) && cfg.maxConcurrentPerOperator >= 1
    ensures Inv(Update(s, cfg, id, changes, policy, now).0, cfg, now)
    ensures Narrows(s, Update(s, cfg, id, changes, policy, now).0)
  {
    var next := UpdateIsGuarded(s, cfg, id, changes, policy, now);
    NarrowsReflexive(s);
    GuardedKeepsInv(s, cfg, id, next, now);
    GuardedNarrows(s, cfg, id, next, now);
    EitherKeeps(s, s, Guarded(s, cfg, id, next, now).0, Update(s, cfg, id, changes, policy, now).0, cfg, now);
  }

  lemma UpdateScopesNarrows(s: Store, cfg: Config, id: string, scopes: ScopeSet, now: int)
    requires Inv(s, cfg, now) && cfg.maxConcurrentPerOperator >= 1
    ensures Inv(UpdateScopes(s, cfg, id, scopes, now).0, cfg, now)
    ensures Narrows(s, UpdateScopes(s, cfg, id, scopes, now).0)
  {
    var swept := Sweep(s, cfg, now);
    var guarded := Guarded(swept, cfg, id, scopes, now).0;
    SweepNarrows(s, cfg, now);
    GuardedKeepsInv(swept, cfg, id, scopes, now);
    GuardedNarrows(swept, cfg, id, scopes, now);
    NarrowsTransitive(s, swept, guarded);
    UpdateScopesIsGuarded(s, cfg, id, scopes, now);
    EitherKeeps(s, swept, guarded, UpdateScopes(s, cfg, id, scopes, now).0, cfg, now);
  }

  lemma ServiceStepNarrows(s: Store, cfg: Config, call: ServiceCall, clock: int)
    requires Inv(s, cfg, clock) && SaneService(s, call, clock) && cfg.maxConcurrentPerOperator >= 1
    ensures Inv(ServiceStep(s, cfg, call), cfg, call.now)
    ensures Narrows(s, ServiceStep(s, cfg, call))
  {
    DerivedLater(s, cfg, clock, call.now);
    match call.op
    case SvcIssue(r, policyId, policy) => ServiceIssueNarrows(s, cfg, r, policyId, policy, call.now);
    case SvcSweep => SweepNarrows(s, cfg, call.now);
    case SvcLookupByToken(token) => {
      CallKeepsInv(s, cfg, GetByTokenOp(token), call.now, GetByToken(s, token, call.now).0);
      GetByTokenNarrows(s, token, call.now);
    }
    case SvcRevoke(id, reason) => RevokeNarrows(s, cfg, id, reason, call.now);
    case SvcUpdate(id, changes, policy) => UpdateNarrows(s, cfg, id, changes, policy, call.now);
    case SvcRenew(id) => RenewNarrows(s, cfg, id, call.now);
    case ActUpdateScopes(id, scopes) => UpdateScopesNarrows(s, cfg, id, scopes, call.now);
  }

  /** Over any run of service calls and scope-update actions, what a credential
      may do at a later time is a subset of what it could do at any earlier
      time, in particular when it was issued. */
  lemma {:induction false} ServiceNeverWidens(s: Store, cfg: Config, calls: seq<ServiceCall>, clock: int)
    requires Inv(s, cfg, clock) && SaneServiceRun(s, cfg, calls, clock) && cfg.maxConcurrentPerOperator >= 1
    ensures Inv(ServiceRun(s, cfg, calls), cfg, ServiceClock(calls, clock))
    ensures Narrows(s, ServiceRun(s, cfg, calls))
    decreases |calls|
  {
    if calls != [] {
      var s1 := ServiceStep(s, cfg, calls[0]);
      ServiceStepNarrows(s, cfg, calls[0], clock);
      ServiceNeverWidens(s1, cfg, calls[1..], calls[0].now);
      NarrowsTransitive(s, s1, ServiceRun(s1, cfg, calls[1..]));
      assert ServiceClock(calls, clock) == ServiceClock(calls[1..], calls[0].now);
    }
  }

  // ---- The service object ------------------------------------------------

  class Service {
    const manager: Manager.Manager

    constructor (manager: Manager.Manager)
      ensures this.manager == manager
    {
      this.manager := manager;
    }

    method IssueThroughPolicy(r: Request, policyId: Option<string>, policy: Option<ScopeSet>, now: int) returns (answer: ServiceAnswer)
      requires OrderExact(manager.View())
      modifies manager
      ensures manager.View() == old(ServiceIssue(manager.View(), manager.cfg, r, policyId, policy, now))
      ensures answer == old(ServiceIssued(manager.View(), manager.cfg, r, policyId, policy, now))
    {
      var swept := manager.SweepExpired(now);
      var request := r;
      if policyId.Some? {
        if policy.None? {
          return Err(PolicyNotFound);
        }
        request := Merged(r, policy.value);
      }
      var record := manager.IssueCredential(request, now);
      answer := Ok(record);
    }

    method UpdateCredential(id: string, changes: Changes, policy: Option<ScopeSet>, now: int) returns (answer: ServiceAnswer)
      modifies manager
      ensures (manager.View(), answer) == old(Update(manager.View(), manager.cfg, id, changes, policy, now))
    {
      if id !in manager.byId {
        return Err(StoreFault(NotFound));
      }
      var current := manager.byId[id];
      if changes.operatorId.Some? || changes.chatIds.Some? || changes.ttlSeconds.Some? {
        return Err(Unsupported);
      }
      if changes.allow.None? && changes.deny.None? && changes.policyId.None? {
        return Ok(current);
      }
      if changes.policyId.Some? && policy.None? {
        return Err(PolicyNotFound);
      }
      answer := Apply(id, NextScopes(current, changes, policy), now);
    }

    method UpdateScopesAction(id: string, scopes: ScopeSet, now: int) returns (answer: ServiceAnswer)
      requires OrderExact(manager.View())
      modifies manager
      ensures (manager.View(), answer) == old(UpdateScopes(manager.View(), manager.cfg, id, scopes, now))
    {
      var swept := manager.SweepExpired(now);
      if id !in manager.byId {
        return Err(StoreFault(NotFound));
      }
      if manager.byId[id].status != Active {
        return Err(NotActive);
      }
      answer := Apply(id, scopes, now);
    }

    /** Check materiality, then revoke or rewrite. */
    method Apply(id: string, scopes: ScopeSet, now: int) returns (answer: ServiceAnswer)
      modifies manager
      ensures var (after, a) := old(Guarded(manager.View(), manager.cfg, id, scopes, now));
        manager.View() == after && answer == Lift(a)
    {
      var check := manager.CheckMaterialityOf(id, scopes);
      var a: Answer;
      if check.None? {
        a := Err(NotFound);
      } else if check.value.requiresReauthorization {
        a := manager.RevokeCredential(id, REAUTHORIZE, now);
      } else {
        a := manager.UpdateCredentialScopes(id, scopes);
      }
      answer := Lift(a);
    }
  }
}
