/** What one call on the credential manager comes to, told from the outside,
    and for what reasons, and no others, an active credential ends. */
module CredentialOutcomes {
  import opened Prelude
  import opened Scopes
  import opened CredentialStore
  import opened CredentialRuns
  import opened CredentialLaws

  /** At most the record of `id` differs, and it has become `r`. */
  ghost predicate OnlyRecord(s: Store, after: Store, id: string, r: Record) {
    && id in s.byId && after.byId.Keys == s.byId.Keys && after.byId[id] == r
    && (forall other :: other in s.byId && other != id ==> after.byId[other] == s.byId[other])
    && after.order == s.order && after.byToken == s.byToken && after.byOperator == s.byOperator
  }

  predicate IsActiveIn(s: Store, id: string) { id in s.byId && s.byId[id].status == Active }

  // ---- Renewing, beating, rewriting ---------------------------------------

  /** Renewing succeeds exactly for an active record with no more than the
      window left, and then moves its expiry to one TTL from now; otherwise
      nothing changes. */
  lemma RenewDecides(s: Store, cfg: Config, id: string, now: int)
    ensures var (after, answer) := Renew(s, cfg, id, now);
      && (answer.Ok? <==> IsActiveIn(s, id) && s.byId[id].expiresAt <= now + 1000 * cfg.renewalWindowSeconds)
      && (answer.Err? ==> after == s)
      && (answer.Ok? ==> answer.value == s.byId[id].(expiresAt := now + s.byId[id].ttlMs) && OnlyRecord(s, after, id, answer.value))
  {
  }

  /** A heartbeat counts exactly for an active record. */
  lemma HeartbeatDecides(s: Store, id: string, now: int)
    ensures var (after, answer) := OnActive(s, id, Beat(now));
      && (answer.Ok? <==> IsActiveIn(s, id))
      && (answer.Err? ==> after == s)
      && (answer.Ok? ==> answer.value == s.byId[id].(lastHeartbeat := now) && OnlyRecord(s, after, id, answer.value))
  {
  }

  /** A record that grants exactly what is allowed and not denied. */
  ghost predicate Grants(r: Record, scopes: ScopeSet) {
    r.effectiveScopes == scopes && forall x :: x in r.resolvedScopes <==> x in scopes.allow && x !in scopes.deny
  }

  /** New scopes take effect exactly on an active record, all derived fields
      with them. */
  lemma RescopeDecides(s: Store, cfg: Config, id: string, scopes: ScopeSet)
    ensures var (after, answer) := OnActive(s, id, Rescoped(cfg, scopes));
      && (answer.Ok? <==> IsActiveIn(s, id))
      && (answer.Err? ==> after == s)
      && (answer.Ok? ==>
            && Grants(answer.value, scopes) && OnlyRecord(s, after, id, answer.value)
            && answer.value == s.byId[id].(effectiveScopes := scopes, resolvedScopes := answer.value.resolvedScopes,
                                           policyHash := PolicyHashOf(cfg, scopes, s.byId[id].chatIds)))
  {
  }

  // ---- Revoking -----------------------------------------------------------

  /** Revoking succeeds exactly for a record that exists, whatever its status. */
  lemma RevokeDecides(s: Store, id: string, reason: string, now: int)
    ensures var (after, answer) := RevokeCredential(s, id, reason, now);
      && (answer.Ok? <==> id in s.byId)
      && (answer.Err? ==> after == s)
      && (answer.Ok? ==>
            && answer.value == s.byId[id].(status := Revoked, revokedAt := Some(now), revocationReason := Some(reason))
            && OnlyRecord(s, after, id, answer.value))
  {
  }

  lemma {:induction false} RevokeEachDoes(s: Store, ids: seq<string>, reason: string, now: int, id: string)
    requires id in s.byId
    ensures id in RevokeEach(s, ids, reason, now).byId
    ensures RevokeEach(s, ids, reason, now).byId[id]
         == if id in ids then s.byId[id].(status := Revoked, revokedAt := Some(now), revocationReason := Some(reason)) else s.byId[id]
  {
    if ids != [] {
      RevokeEachDoes(s, ids[..|ids| - 1], reason, now, id);
      assert ids == ids[..|ids| - 1] + [ids[|ids| - 1]];
    }
  }

  /** Revoking all of an operator's credentials revokes exactly the active ones
      of that operator. */
  lemma RevokeAllDecides(s: Store, operatorId: string, reason: string, now: int, id: string)
    requires Indexed(s) && id in s.byId
    ensures var r, after := s.byId[id], RevokeAll(s, operatorId, reason, now);
      && after.byId.Keys == s.byId.Keys
      && after.byId[id] == if r.operatorId == operatorId && r.status == Active
                           then r.(status := Revoked, revokedAt := Some(now), revocationReason := Some(reason)) else r
  {
    RevokeEachDoes(s, ActiveIds(s, operatorId), reason, now, id);
    RevokeEachRewrites(s, ActiveIds(s, operatorId), reason, now);
    ActiveIdsExact(s, operatorId, id);
  }

  // ---- Looking up ---------------------------------------------------------

  predicate Carries(s: Store, id: string, token: string) { id in s.byId && s.byId[id].token == token }

  /** A lookup by token finds nothing exactly when no record carries the token.
      A record past its expiry is marked expired, whatever it was, and not
      opened; any other opens exactly if it is active. */
  lemma LookupDecides(s: Store, token: string, now: int, id: string)
    requires Indexed(s)
    ensures var (after, answer) := GetByToken(s, token, now);
      && (answer == Err(NotFound) <==> forall i :: !Carries(s, i, token))
      && (answer == Err(NotFound) ==> after == s)
      && (Carries(s, id, token) && Outlived(s.byId[id], now) ==>
            answer == Err(CredentialExpired) && OnlyRecord(s, after, id, s.byId[id].(status := Expired)))
      && (Carries(s, id, token) && !Outlived(s.byId[id], now) ==>
            after == s && answer == if s.byId[id].status == Active then Ok(s.byId[id]) else Err(CredentialExpired))
  {
    if token in s.byToken {
      assert Carries(s, s.byToken[token], token);
    }
  }

  // ---- Sweeping -----------------------------------------------------------

  /** Past its expiry at this time. */
  predicate Outlived(r: Record, now: int) { r.expiresAt <= now }

  /** Silent for its interval and the grace period, in milliseconds. */
  predicate FellSilent(cfg: Config, r: Record, now: int) {
    now - r.lastHeartbeat >= 1000 * (r.heartbeatInterval + cfg.heartbeatGracePeriod)
  }

  /** What a sweep makes of a record: expiry goes before silence. */
  lemma SweepDecides(s: Store, cfg: Config, now: int, id: string)
    requires id in s.byId
    ensures var r, after := s.byId[id], Sweep(s, cfg, now);
      && after.byId.Keys == s.byId.Keys && after.order == s.order && after.byToken == s.byToken && after.byOperator == s.byOperator
      && after.byId[id] ==
           if r.status == Active && Outlived(r, now) then r.(status := Expired)
           else if r.status == Active && FellSilent(cfg, r, now)
           then r.(status := Revoked, revokedAt := Some(now), revocationReason := Some("heartbeat-timeout"))
           else r
  {
  }

  // ---- Issuing ------------------------------------------------------------

  function OrEmpty(list: Option<seq<Scope>>): seq<Scope> { if list.Some? then list.value else [] }

  /** The record a request asks for: alive from now for the TTL asked for. */
  ghost predicate AsRequested(r: Record, cfg: Config, q: Request, now: int) {
    && r.credentialId == q.freshId && r.token == q.freshToken
    && r.operatorId == q.operatorId && r.chatIds == q.chatIds
    && Grants(r, ScopeSet(OrEmpty(q.allow), OrEmpty(q.deny)))
    && r.policyHash == PolicyHashOf(cfg, r.effectiveScopes, r.chatIds)
    && r.status == Active && r.revokedAt.None? && r.revocationReason.None?
    && r.issuedAt == now && r.lastHeartbeat == now && r.heartbeatInterval == 30
    && (q.ttlSeconds.Some? ==> r.ttlMs == 1000 * q.ttlSeconds.value)
    && (q.ttlSeconds.None? ==> r.ttlMs == 1000 * cfg.defaultTtlSeconds)
    && r.expiresAt - now == r.ttlMs
    && (q.issuedBy.Some? ==> r.issuedBy == q.issuedBy.value)
    && (q.issuedBy.None? ==> r.issuedBy == "owner")
  }

  /** An active credential of the operator that has the requested policy and is
      not the one given up. */
  predicate IsTwin(s: Store, cfg: Config, q: Request, id: string) {
    && IsActiveIn(s, id) && s.byId[id].operatorId == q.operatorId
    && s.byId[id].policyHash == PolicyHashOf(cfg, RequestedScopes(q), q.chatIds)
    && Evicted(s, cfg, q.operatorId) != Some(id)
  }

  /** What a record becomes when another is issued: the one given up is revoked,
      every other one stays as it is. */
  lemma EvictionTouches(s: Store, cfg: Config, operatorId: string, now: int, id: string)
    requires Indexed(s) && cfg.maxConcurrentPerOperator >= 1
    ensures var s1 := AfterEviction(s, cfg, operatorId, now);
      && s1.byId.Keys == s.byId.Keys
      && (id in s.byId && Evicted(s, cfg, operatorId) != Some(id) ==> s1.byId[id] == s.byId[id])
      && (id in s.byId && Evicted(s, cfg, operatorId) == Some(id) ==>
            s1.byId[id] == s.byId[id].(status := Revoked, revokedAt := Some(now), revocationReason := Some("policy-violation")))
  {
    EvictedIsOldest(s, cfg, operatorId);
  }

  lemma TwinsExact(s: Store, operatorId: string, hash: string, id: string)
    requires OperatorsExact(s)
    ensures id in Twins(s, operatorId, hash) <==>
      IsActiveIn(s, id) && s.byId[id].operatorId == operatorId && s.byId[id].policyHash == hash
  {
    ActiveIdsExact(s, operatorId, id);
    assert HasHash(s.byId, hash)(id) <==> id in s.byId && s.byId[id].policyHash == hash;
  }

  /** The twins still there after the eviction. */
  lemma TwinsLeft(s: Store, cfg: Config, q: Request, now: int, s1: Store, hash: string, id: string)
    requires Indexed(s) && OperatorsExact(s1) && cfg.maxConcurrentPerOperator >= 1
    requires s1 == AfterEviction(s, cfg, q.operatorId, now) && hash == PolicyHashOf(cfg, RequestedScopes(q), q.chatIds)
    ensures id in Twins(s1, q.operatorId, hash) <==> IsTwin(s, cfg, q, id)
  {
    EvictionTouches(s, cfg, q.operatorId, now, id);
    TwinsExact(s1, q.operatorId, hash, id);
  }

  lemma FreshAsRequested(cfg: Config, q: Request, now: int)
    ensures AsRequested(Fresh(cfg, q, now), cfg, q, now)
  {
  }

  /** Issuing takes the first twin left, or stores a fresh record. */
  lemma IssueEither(s: Store, cfg: Config, q: Request, now: int, s1: Store, twins: seq<string>)
    requires s1 == AfterEviction(s, cfg, q.operatorId, now)
    requires twins == Twins(s1, q.operatorId, PolicyHashOf(cfg, RequestedScopes(q), q.chatIds))
    ensures twins != [] ==> twins[0] in s1.byId && Issue(s, cfg, q, now) == (s1, s1.byId[twins[0]])
    ensures twins == [] ==> Issue(s, cfg, q, now) == (Upsert(s1, Fresh(cfg, q, now)), Fresh(cfg, q, now))
  {
    assert twins != [] ==> twins[0] in twins;
  }

  ghost predicate HasTwin(s: Store, cfg: Config, q: Request) { exists id :: IsTwin(s, cfg, q, id) }

  /** The answer is an active twin, as it was, and no record is added. */
  ghost predicate AnswersTwin(s: Store, cfg: Config, q: Request, after: Store, answer: Record) {
    && IsTwin(s, cfg, q, answer.credentialId) && answer == s.byId[answer.credentialId]
    && after.byId.Keys == s.byId.Keys
  }

  /** The answer is a new record, as requested, and joins the others. */
  ghost predicate AnswersNew(s: Store, cfg: Config, q: Request, now: int, after: Store, answer: Record) {
    && AsRequested(answer, cfg, q, now) && q.freshId !in s.byId
    && after.byId.Keys == s.byId.Keys + {q.freshId} && after.byId[q.freshId] == answer
  }

  lemma AnswerFound(s: Store, cfg: Config, q: Request, now: int, s1: Store, hash: string, id: string)
    requires Indexed(s) && OperatorsExact(s1) && cfg.maxConcurrentPerOperator >= 1
    requires s1 == AfterEviction(s, cfg, q.operatorId, now) && hash == PolicyHashOf(cfg, RequestedScopes(q), q.chatIds)
    requires id in Twins(s1, q.operatorId, hash)
    ensures id in s1.byId && AnswersTwin(s, cfg, q, s1, s1.byId[id]) && HasTwin(s, cfg, q)
  {
    TwinsLeft(s, cfg, q, now, s1, hash, id);
    EvictionTouches(s, cfg, q.operatorId, now, id);
    assert IsTwin(s, cfg, q, id) && s.byId[id].credentialId == id;
  }

  lemma NoTwinLeft(s: Store, cfg: Config, q: Request, now: int, s1: Store, hash: string)
    requires Indexed(s) && OperatorsExact(s1) && cfg.maxConcurrentPerOperator >= 1
    requires s1 == AfterEviction(s, cfg, q.operatorId, now) && hash == PolicyHashOf(cfg, RequestedScopes(q), q.chatIds)
    requires Twins(s1, q.operatorId, hash) == []
    ensures !HasTwin(s, cfg, q)
  {
    forall id
      ensures !IsTwin(s, cfg, q, id)
    {
      TwinsLeft(s, cfg, q, now, s1, hash, id);
    }
  }

  lemma AnswerMade(s: Store, cfg: Config, q: Request, now: int, s1: Store)
    requires Indexed(s) && cfg.maxConcurrentPerOperator >= 1 && IsFresh(s, q)
    requires s1 == AfterEviction(s, cfg, q.operatorId, now)
    ensures AnswersNew(s, cfg, q, now, Upsert(s1, Fresh(cfg, q, now)), Fresh(cfg, q, now))
  {
    EvictionTouches(s, cfg, q.operatorId, now, q.freshId);
    FreshAsRequested(cfg, q, now);
  }

  /** Issuing does no more than that to the records already there. */
  lemma IssueLeaves(s: Store, cfg: Config, q: Request, now: int, id: string)
    requires Indexed(s) && cfg.maxConcurrentPerOperator >= 1 && IsFresh(s, q) && id in s.byId
    ensures id in Issue(s, cfg, q, now).0.byId
    ensures Issue(s, cfg, q, now).0.byId[id] ==
      if Evicted(s, cfg, q.operatorId) == Some(id)
      then s.byId[id].(status := Revoked, revokedAt := Some(now), revocationReason := Some("policy-violation"))
      else s.byId[id]
  {
    EvictionTouches(s, cfg, q.operatorId, now, id);
    var s1 := AfterEviction(s, cfg, q.operatorId, now);
    IssueEither(s, cfg, q, now, s1, Twins(s1, q.operatorId, PolicyHashOf(cfg, RequestedScopes(q), q.chatIds)));
  }

  /** Issuing answers with an active twin if there is one, and otherwise with a
      new record that is as requested and enters the store. */
  lemma IssueDecides(s: Store, cfg: Config, q: Request, now: int)
    requires Inv(s, cfg, now) && cfg.maxConcurrentPerOperator >= 1 && IsFresh(s, q)
    ensures var (after, answer) := Issue(s, cfg, q, now);
      if HasTwin(s, cfg, q) then AnswersTwin(s, cfg, q, after, answer) else AnswersNew(s, cfg, q, now, after, answer)
  {
    var s1, hash := AfterEviction(s, cfg, q.operatorId, now), PolicyHashOf(cfg, RequestedScopes(q), q.chatIds);
    var twins := Twins(s1, q.operatorId, hash);
    assert OperatorsExact(s1) by {
      AfterEvictionKeepsInv(s, cfg, q.operatorId, now);
    }
    IssueEither(s, cfg, q, now, s1, twins);
    if twins != [] {
      AnswerFound(s, cfg, q, now, s1, hash, twins[0]);
    } else {
      NoTwinLeft(s, cfg, q, now, s1, hash);
      AnswerMade(s, cfg, q, now, s1);
    }
  }

  // ---- Why a credential ends ----------------------------------------------

  /** The only reasons for which a call ends an active credential. */
  predicate Ends(s: Store, cfg: Config, call: Call, id: string)
    requires id in s.byId
  {
    var r := s.byId[id];
    match call.op
    case IssueOp(q) => Evicted(s, cfg, q.operatorId) == Some(id)
    case GetByTokenOp(token) => token == r.token && Outlived(r, call.now)
    case RevokeOp(revoked, _) => revoked == id
    case RevokeAllOp(operatorId, _) => operatorId == r.operatorId
    case SweepOp => Outlived(r, call.now) || FellSilent(cfg, r, call.now)
    case _ => false
  }

  lemma IssueEnds(s: Store, cfg: Config, q: Request, now: int, id: string)
    requires IsFresh(s, q) && IsActiveIn(s, id)
    ensures id in Issue(s, cfg, q, now).0.byId
    ensures Issue(s, cfg, q, now).0.byId[id].status != Active <==> Evicted(s, cfg, q.operatorId) == Some(id)
  {
    IssueTouches(s, cfg, q, now);
  }

  lemma LookupEnds(s: Store, token: string, now: int, id: string)
    requires TokensExact(s) && IsActiveIn(s, id)
    ensures id in GetByToken(s, token, now).0.byId
    ensures GetByToken(s, token, now).0.byId[id].status != Active <==> token == s.byId[id].token && Outlived(s.byId[id], now)
  {
  }

  ghost predicate EndsRightly(s: Store, after: Store, cfg: Config, call: Call, id: string)
    requires id in s.byId
  {
    id in after.byId && (!IsActiveIn(after, id) <==> Ends(s, cfg, call, id))
  }

  lemma RevokeEnds(s: Store, cfg: Config, call: Call, id: string)
    requires Indexed(s) && IsActiveIn(s, id) && (call.op.RevokeOp? || call.op.RevokeAllOp?)
    ensures EndsRightly(s, Step(s, cfg, call), cfg, call, id)
  {
    if call.op.RevokeOp? {
      RevokeDecides(s, call.op.id, call.op.reason, call.now);
    } else {
      RevokeAllDecides(s, call.op.operatorId, call.op.reason, call.now, id);
    }
  }

  /** Heartbeats, renewals and new scopes end nothing. */
  lemma RewriteEnds(s: Store, cfg: Config, call: Call, id: string)
    requires IsActiveIn(s, id) && (call.op.HeartbeatOp? || call.op.RenewOp? || call.op.UpdateScopesOp?)
    ensures EndsRightly(s, Step(s, cfg, call), cfg, call, id)
  {
    match call.op
    case HeartbeatOp(i) => HeartbeatDecides(s, i, call.now);
    case RenewOp(i) => RenewDecides(s, cfg, i, call.now);
    case UpdateScopesOp(i, scopes) => RescopeDecides(s, cfg, i, scopes);
  }

  /** One call ends an active credential exactly for one of these reasons. */
  lemma StepEndsIff(s: Store, cfg: Config, call: Call, clock: int, id: string)
    requires Indexed(s) && Sane(s, call, clock) && IsActiveIn(s, id)
    ensures EndsRightly(s, Step(s, cfg, call), cfg, call, id)
  {
    match call.op
    case IssueOp(q) => IssueEnds(s, cfg, q, call.now, id);
    case GetByTokenOp(token) => LookupEnds(s, token, call.now, id);
    case SweepOp => SweepDecides(s, cfg, call.now, id);
    case RevokeOp(_, _) => RevokeEnds(s, cfg, call, id);
    case RevokeAllOp(_, _) => RevokeEnds(s, cfg, call, id);
    case _ => RewriteEnds(s, cfg, call, id);
  }

  /** Call `n` of the run has a reason to end `id`. */
  ghost predicate EndsAt(s: Store, cfg: Config, calls: seq<Call>, id: string, n: nat)
    requires n < |calls|
  {
    var before := Run(s, cfg, calls[..n]);
    id in before.byId && Ends(before, cfg, calls[n], id)
  }

  ghost predicate Spared(s: Store, cfg: Config, calls: seq<Call>, id: string) {
    forall n :: 0 <= n < |calls| ==> !EndsAt(s, cfg, calls, id, n)
  }

  lemma EndsAtTail(s: Store, cfg: Config, calls: seq<Call>, id: string, n: nat)
    requires n + 1 < |calls|
    ensures EndsAt(s, cfg, calls, id, n + 1) == EndsAt(Step(s, cfg, calls[0]), cfg, calls[1..], id, n)
  {
    assert calls[..n + 1][1..] == calls[1..][..n];
  }

  lemma SparedTail(s: Store, cfg: Config, calls: seq<Call>, id: string)
    requires calls != [] && id in s.byId
    ensures Spared(s, cfg, calls, id) <==> !Ends(s, cfg, calls[0], id) && Spared(Step(s, cfg, calls[0]), cfg, calls[1..], id)
  {
    var s1, rest := Step(s, cfg, calls[0]), calls[1..];
    assert EndsAt(s, cfg, calls, id, 0) == Ends(s, cfg, calls[0], id);
    forall n | 0 <= n < |rest|
      ensures EndsAt(s, cfg, calls, id, n + 1) == EndsAt(s1, cfg, rest, id, n)
    {
      EndsAtTail(s, cfg, calls, id, n);
    }
    if Spared(s, cfg, calls, id) {
      forall n | 0 <= n < |rest|
        ensures !EndsAt(s1, cfg, rest, id, n)
      {
        assert !EndsAt(s, cfg, calls, id, n + 1);
      }
    } else {
      var m :| 0 <= m < |calls| && EndsAt(s, cfg, calls, id, m);
      assert m > 0 ==> EndsAt(s1, cfg, rest, id, m - 1);
    }
  }

  /** Over any run, an active credential is still active at the end exactly when
      no call of the run had one of these reasons to end it. */
  lemma {:induction false} RunEndsIff(s: Store, cfg: Config, calls: seq<Call>, clock: int, id: string)
    requires Inv(s, cfg, clock) && SaneRun(s, cfg, calls, clock) && cfg.maxConcurrentPerOperator >= 1 && IsActiveIn(s, id)
    ensures IsActiveIn(Run(s, cfg, calls), id) <==> Spared(s, cfg, calls, id)
    decreases |calls|
  {
    if calls != [] {
      var s1, rest := Step(s, cfg, calls[0]), calls[1..];
      StepKeepsInv(s, cfg, calls[0], clock);
      StepEndsIff(s, cfg, calls[0], clock, id);
      SparedTail(s, cfg, calls, id);
      if IsActiveIn(s1, id) {
        RunEndsIff(s1, cfg, rest, calls[0].now, id);
      } else {
        RunLater(s1, cfg, rest, calls[0].now);
        assert Later(s1.byId[id], Run(s1, cfg, rest).byId[id]);
      }
    }
  }

  /** A credential that is spared opens with its token until its expiry, which
      a run never moves earlier. */
  lemma SparedOpens(s: Store, cfg: Config, calls: seq<Call>, clock: int, id: string, at: int)
    requires Inv(s, cfg, clock) && SaneRun(s, cfg, calls, clock) && cfg.maxConcurrentPerOperator >= 1
    requires IsActiveIn(s, id) && Spared(s, cfg, calls, id) && at < s.byId[id].expiresAt
    ensures var answer := GetByToken(Run(s, cfg, calls), s.byId[id].token, at).1;
      answer.Ok? && answer.value.credentialId == id
  {
    RunEndsIff(s, cfg, calls, clock, id);
    RunKeepsInv(s, cfg, calls, clock);
    RunLater(s, cfg, calls, clock);
    var later := Run(s, cfg, calls);
    assert Later(s.byId[id], later.byId[id]);
    assert later.byId[id].credentialId == id;
  }

  /** So a renewal lasts: whatever happens afterwards, short of one of these
      reasons, the token opens the credential for one whole TTL from then. */
  lemma RenewalLasts(s: Store, cfg: Config, id: string, now: int, clock: int, after: Store, calls: seq<Call>, at: int)
    requires Inv(s, cfg, clock) && clock <= now && cfg.maxConcurrentPerOperator >= 1
    requires Renew(s, cfg, id, now).1.Ok? && after == Renew(s, cfg, id, now).0 && at < now + s.byId[id].ttlMs
    requires SaneRun(after, cfg, calls, now) && Spared(after, cfg, calls, id)
    ensures var answer := GetByToken(Run(after, cfg, calls), s.byId[id].token, at).1;
      answer.Ok? && answer.value.credentialId == id
  {
    RenewedAnew(s, cfg, id, now, after);
    RenewKeepsInv(s, cfg, id, now, clock, after);
    SparedOpens(after, cfg, calls, now, id, at);
  }

  lemma RenewStep(s: Store, cfg: Config, id: string, now: int)
    ensures Step(s, cfg, Call(RenewOp(id), now)) == Renew(s, cfg, id, now).0
  {
  }

  lemma RenewKeepsInv(s: Store, cfg: Config, id: string, now: int, clock: int, after: Store)
    requires Inv(s, cfg, clock) && clock <= now && cfg.maxConcurrentPerOperator >= 1
    requires after == Renew(s, cfg, id, now).0
    ensures Inv(after, cfg, now)
  {
    RenewStep(s, cfg, id, now);
    StepKeepsInv(s, cfg, Call(RenewOp(id), now), clock);
  }

  lemma RenewedAnew(s: Store, cfg: Config, id: string, now: int, after: Store)
    requires Renew(s, cfg, id, now).1.Ok? && after == Renew(s, cfg, id, now).0
    ensures IsActiveIn(after, id)
    ensures id in s.byId && after.byId[id].token == s.byId[id].token && after.byId[id].expiresAt == now + s.byId[id].ttlMs
  {
    RenewDecides(s, cfg, id, now);
  }

  /** And so does a new credential. */
  lemma IssueLasts(s: Store, cfg: Config, q: Request, now: int, clock: int, after: Store, r: Record, calls: seq<Call>, at: int)
    requires Inv(s, cfg, clock) && clock <= now && cfg.maxConcurrentPerOperator >= 1 && IsFresh(s, q)
    requires Issue(s, cfg, q, now) == (after, r) && r.credentialId == q.freshId && at < now + r.ttlMs
    requires SaneRun(after, cfg, calls, now) && Spared(after, cfg, calls, q.freshId)
    ensures var answer := GetByToken(Run(after, cfg, calls), q.freshToken, at).1;
      answer.Ok? && answer.value.credentialId == q.freshId
  {
    DerivedLater(s, cfg, clock, now);
    IssueDecides(s, cfg, q, now);
    IssueKeepsInv(s, cfg, q, now);
    SparedOpens(after, cfg, calls, now, q.freshId, at);
  }
}
