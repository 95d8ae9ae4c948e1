/** What the credential manager promises over whole runs. */
module CredentialLaws {
  import opened Prelude
  import opened PolicyHash
  import opened CredentialStore
  import opened CredentialRuns

  // ---- Issuing gives up at most one credential ---------------------------

  lemma ActiveIdsExact(s: Store, operatorId: string, id: string)
    requires OperatorsExact(s)
    ensures id in ActiveIds(s, operatorId) <==> id in s.byId && s.byId[id].operatorId == operatorId && s.byId[id].status == Active
  {
    assert id in IdsOf(s, operatorId) <==> id in s.byId && s.byId[id].operatorId == operatorId;
  }

  /** Issuing touches at most one existing record. It does so exactly when the
      operator is at its limit, and then revokes an active record of that
      operator than which no active record of the operator was issued earlier.
      The answer is an active record of the operator with the requested policy. */
  lemma IssueRevokesOldest(s: Store, cfg: Config, r: Request, now: int)
    requires Inv(s, cfg, now) && cfg.maxConcurrentPerOperator >= 1 && IsFresh(s, r)
    ensures var (after, answer) := Issue(s, cfg, r, now);
      var evicted := Evicted(s, cfg, r.operatorId);
      && (evicted.Some? <==> |ActiveIds(s, r.operatorId)| == cfg.maxConcurrentPerOperator)
      && (forall id :: id in s.byId && evicted != Some(id) ==> id in after.byId && after.byId[id] == s.byId[id])
      && (evicted.Some? ==>
            && evicted.value in s.byId && s.byId[evicted.value].operatorId == r.operatorId
            && s.byId[evicted.value].status == Active && after.byId[evicted.value].status == Revoked
            && forall id :: id in s.byId && s.byId[id].operatorId == r.operatorId && s.byId[id].status == Active
                            ==> s.byId[evicted.value].issuedAt <= s.byId[id].issuedAt)
      && answer.credentialId in after.byId && after.byId[answer.credentialId] == answer
      && answer.status == Active && answer.operatorId == r.operatorId
      && answer.policyHash == PolicyHashOf(cfg, RequestedScopes(r), r.chatIds)
  {
    OldestOfOperator(s, cfg, r.operatorId);
    assert |ActiveIds(s, r.operatorId)| <= cfg.maxConcurrentPerOperator;
    IssueTouches(s, cfg, r, now);
    IssueAnswer(s, cfg, r, now);
  }

  lemma OldestOfOperator(s: Store, cfg: Config, operatorId: string)
    requires Indexed(s) && cfg.maxConcurrentPerOperator >= 1
    ensures var evicted := Evicted(s, cfg, operatorId);
      && (evicted.Some? <==> |ActiveIds(s, operatorId)| >= cfg.maxConcurrentPerOperator)
      && (evicted.Some? ==>
            && evicted.value in s.byId && s.byId[evicted.value].operatorId == operatorId
            && s.byId[evicted.value].status == Active
            && forall id :: id in s.byId && s.byId[id].operatorId == operatorId && s.byId[id].status == Active
                            ==> s.byId[evicted.value].issuedAt <= s.byId[id].issuedAt)
  {
    var evicted := Evicted(s, cfg, operatorId);
    EvictedIsOldest(s, cfg, operatorId);
    forall id | evicted.Some? && id in s.byId && s.byId[id].operatorId == operatorId && s.byId[id].status == Active
      ensures s.byId[evicted.value].issuedAt <= s.byId[id].issuedAt
    {
      ActiveIdsExact(s, operatorId, id);
    }
  }

  lemma IssueTouches(s: Store, cfg: Config, r: Request, now: int)
    requires IsFresh(s, r)
    ensures var after, evicted := Issue(s, cfg, r, now).0, Evicted(s, cfg, r.operatorId);
      && (forall id :: id in s.byId && evicted != Some(id) ==> id in after.byId && after.byId[id] == s.byId[id])
      && (evicted.Some? && evicted.value in s.byId ==> evicted.value in after.byId && after.byId[evicted.value].status == Revoked)
  {
  }

  lemma IssueAnswer(s: Store, cfg: Config, r: Request, now: int)
    requires Inv(s, cfg, now) && cfg.maxConcurrentPerOperator >= 1 && IsFresh(s, r)
    ensures var (after, answer) := Issue(s, cfg, r, now);
      var s1 := AfterEviction(s, cfg, r.operatorId, now);
      && (after == s1 || after == Upsert(s1, Fresh(cfg, r, now)))
      && answer.credentialId in after.byId && after.byId[answer.credentialId] == answer
      && answer.status == Active && answer.operatorId == r.operatorId
      && answer.policyHash == PolicyHashOf(cfg, RequestedScopes(r), r.chatIds)
  {
    AfterEvictionKeepsInv(s, cfg, r.operatorId, now);
    var s1 := AfterEviction(s, cfg, r.operatorId, now);
    var twins := Twins(s1, r.operatorId, PolicyHashOf(cfg, RequestedScopes(r), r.chatIds));
    if twins != [] {
      assert twins[0] in twins && twins[0] in ActiveIds(s1, r.operatorId);
      ActiveIdsExact(s1, r.operatorId, twins[0]);
    }
  }

  // ---- Records only ever move on -----------------------------------------

  ghost predicate AllLater(s: Store, s': Store) {
    forall id :: id in s.byId ==> id in s'.byId && Later(s.byId[id], s'.byId[id])
  }

  lemma StepLater(s: Store, cfg: Config, call: Call, clock: int)
    requires Inv(s, cfg, clock) && Sane(s, call, clock) && cfg.maxConcurrentPerOperator >= 1
    ensures AllLater(s, Step(s, cfg, call))
  {
    DerivedLater(s, cfg, clock, call.now);
    if call.op.IssueOp? {
      var r := call.op.request;
      IssueAnswer(s, cfg, r, call.now);
      EvictionMakesRoom(s, cfg, r.operatorId, call.now);
    } else {
      StepRewrites(s, cfg, call);
    }
  }

  lemma AllLaterTransitive(a: Store, b: Store, c: Store)
    requires AllLater(a, b) && AllLater(b, c)
    ensures AllLater(a, c)
  {
    forall id | id in a.byId
      ensures id in c.byId && Later(a.byId[id], c.byId[id])
    {
      assert id in b.byId && Later(a.byId[id], b.byId[id]) && Later(b.byId[id], c.byId[id]);
    }
  }

  /** Over any run: no record disappears or changes identity, none that has
      left `active` returns to it, and none has its expiry moved earlier. */
  lemma {:induction false} RunLater(s: Store, cfg: Config, calls: seq<Call>, clock: int)
    requires Inv(s, cfg, clock) && SaneRun(s, cfg, calls, clock) && cfg.maxConcurrentPerOperator >= 1
    ensures AllLater(s, Run(s, cfg, calls))
    decreases |calls|
  {
    if calls != [] {
      var s1 := Step(s, cfg, calls[0]);
      StepKeepsInv(s, cfg, calls[0], clock);
      StepLater(s, cfg, calls[0], clock);
      RunLater(s1, cfg, calls[1..], calls[0].now);
      AllLaterTransitive(s, s1, Run(s1, cfg, calls[1..]));
    }
  }

  // ---- No two active credentials with one policy -------------------------

  ghost predicate UniquePolicies(s: Store) {
    forall a, b :: a in s.byId && b in s.byId && a != b
      && s.byId[a].status == Active && s.byId[b].status == Active && s.byId[a].operatorId == s.byId[b].operatorId
      ==> s.byId[a].policyHash != s.byId[b].policyHash
  }

  ghost predicate KeepsHashes(s: Store, s': Store) {
    s'.byId.Keys == s.byId.Keys && forall id :: id in s.byId ==> s'.byId[id].policyHash == s.byId[id].policyHash
  }

  lemma {:induction false} RevokeEachKeepsHashes(s: Store, ids: seq<string>, reason: string, now: int)
    ensures KeepsHashes(s, RevokeEach(s, ids, reason, now))
  {
    if ids != [] {
      RevokeEachKeepsHashes(s, ids[..|ids| - 1], reason, now);
    }
  }

  lemma StepKeepsHashes(s: Store, cfg: Config, call: Call)
    requires !call.op.IssueOp? && !call.op.UpdateScopesOp?
    ensures KeepsHashes(s, Step(s, cfg, call))
  {
    if call.op.RevokeAllOp? {
      RevokeEachKeepsHashes(s, ActiveIds(s, call.op.operatorId), call.op.reason, call.now);
    }
  }

  lemma RewritesKeepsUnique(s: Store, s': Store)
    requires UniquePolicies(s) && Rewrites(s, s') && KeepsHashes(s, s')
    ensures UniquePolicies(s')
  {
    forall a, b | a in s'.byId && b in s'.byId && a != b
      && s'.byId[a].status == Active && s'.byId[b].status == Active && s'.byId[a].operatorId == s'.byId[b].operatorId
      ensures s'.byId[a].policyHash != s'.byId[b].policyHash
    {
      assert Later(s.byId[a], s'.byId[a]) && Later(s.byId[b], s'.byId[b]);
    }
  }

  lemma UpsertKeepsUnique(s: Store, r: Record)
    requires UniquePolicies(s) && r.credentialId !in s.byId
    requires forall id :: id in s.byId && s.byId[id].status == Active && s.byId[id].operatorId == r.operatorId
                          ==> s.byId[id].policyHash != r.policyHash
    ensures UniquePolicies(Upsert(s, r))
  {
  }

  lemma NoTwin(s: Store, r: Record)
    requires OperatorsExact(s) && Twins(s, r.operatorId, r.policyHash) == []
    ensures forall id :: id in s.byId && s.byId[id].status == Active && s.byId[id].operatorId == r.operatorId
                         ==> s.byId[id].policyHash != r.policyHash
  {
    forall id | id in s.byId && s.byId[id].status == Active && s.byId[id].operatorId == r.operatorId
      ensures s.byId[id].policyHash != r.policyHash
    {
      ActiveIdsExact(s, r.operatorId, id);
      assert !HasHash(s.byId, r.policyHash)(id);
    }
  }

  lemma EvictionKeepsUnique(s: Store, cfg: Config, operatorId: string, now: int)
    requires UniquePolicies(s)
    ensures UniquePolicies(AfterEviction(s, cfg, operatorId, now))
  {
    var evicted := Evicted(s, cfg, operatorId);
    if evicted.Some? {
      RevokeRecordRewrites(s, evicted.value, "policy-violation", now);
      RewritesKeepsUnique(s, AfterEviction(s, cfg, operatorId, now));
    }
  }

  lemma IssueKeepsUnique(s: Store, cfg: Config, r: Request, now: int)
    requires Inv(s, cfg, now) && cfg.maxConcurrentPerOperator >= 1 && IsFresh(s, r) && UniquePolicies(s)
    ensures UniquePolicies(Issue(s, cfg, r, now).0)
  {
    var s1 := AfterEviction(s, cfg, r.operatorId, now);
    EvictionKeepsUnique(s, cfg, r.operatorId, now);
    AfterEvictionKeepsInv(s, cfg, r.operatorId, now);
    EvictionMakesRoom(s, cfg, r.operatorId, now);
    var record := Fresh(cfg, r, now);
    if Twins(s1, r.operatorId, record.policyHash) == [] {
      NoTwin(s1, record);
      UpsertKeepsUnique(s1, record);
      assert Issue(s, cfg, r, now).0 == Upsert(s1, record);
    } else {
      assert Issue(s, cfg, r, now).0 == s1;
    }
  }

  /** Without scope updates, an operator never holds two active credentials
      with the same policy hash, hence none with the same canonical policy. */
  lemma {:induction false} RunKeepsUnique(s: Store, cfg: Config, calls: seq<Call>, clock: int)
    requires Inv(s, cfg, clock) && SaneRun(s, cfg, calls, clock) && cfg.maxConcurrentPerOperator >= 1
    requires UniquePolicies(s) && forall i :: 0 <= i < |calls| ==> !calls[i].op.UpdateScopesOp?
    ensures UniquePolicies(Run(s, cfg, calls))
    decreases |calls|
  {
    if calls != [] {
      var s1 := Step(s, cfg, calls[0]);
      DerivedLater(s, cfg, clock, calls[0].now);
      StepKeepsInv(s, cfg, calls[0], clock);
      if calls[0].op.IssueOp? {
        IssueKeepsUnique(s, cfg, calls[0].op.request, calls[0].now);
      } else {
        StepRewrites(s, cfg, calls[0]);
        StepKeepsHashes(s, cfg, calls[0]);
        RewritesKeepsUnique(s, s1);
      }
      RunKeepsUnique(s1, cfg, calls[1..], calls[0].now);
    }
  }

  lemma UniqueCanonicalPolicies(cfg: Config, calls: seq<Call>, clock: int, a: string, b: string)
    requires SaneRun(EMPTY, cfg, calls, clock) && cfg.maxConcurrentPerOperator >= 1
    requires forall i :: 0 <= i < |calls| ==> !calls[i].op.UpdateScopesOp?
    requires a in Run(EMPTY, cfg, calls).byId && b in Run(EMPTY, cfg, calls).byId && a != b
    ensures var p, q := Run(EMPTY, cfg, calls).byId[a], Run(EMPTY, cfg, calls).byId[b];
      p.status == Active && q.status == Active && p.operatorId == q.operatorId ==>
        CanonicalPolicy(p.effectiveScopes, p.chatIds, cfg.collate) != CanonicalPolicy(q.effectiveScopes, q.chatIds, cfg.collate)
  {
    EmptyInv(cfg, clock);
    RunKeepsInv(EMPTY, cfg, calls, clock);
    RunKeepsUnique(EMPTY, cfg, calls, clock);
    var s := Run(EMPTY, cfg, calls);
    assert RecordDerived(cfg, s.byId[a], Clock(calls, clock)) && RecordDerived(cfg, s.byId[b], Clock(calls, clock));
  }

  // ---- Tokens ------------------------------------------------------------

  /** A token opens a record exactly when some active record past no expiry
      carries it, and that is the record returned. A failed lookup changes at
      most the status of an expired record. */
  lemma LookupIff(s: Store, token: string, now: int)
    requires Indexed(s)
    ensures var (after, answer) := GetByToken(s, token, now);
      && (answer.Ok? <==> exists id :: id in s.byId && s.byId[id].token == token && s.byId[id].status == Active && now < s.byId[id].expiresAt)
      && (answer.Ok? ==> after == s && answer.value.token == token && answer.value.credentialId in s.byId
                         && s.byId[answer.value.credentialId] == answer.value && answer.value.status == Active)
      && (forall id :: id in s.byId && now < s.byId[id].expiresAt ==> id in after.byId && after.byId[id] == s.byId[id])
  {
    if token in s.byToken {
      var id := s.byToken[token];
      assert id in s.byId && s.byId[id].token == token;
      assert forall other :: other in s.byId && s.byId[other].token == token ==> other == id;
    }
  }

  // ---- Sweeping ----------------------------------------------------------

  /** A sweep at time `now` leaves no active record past a deadline, marks the
      ones past their TTL expired and the others revoked, reports exactly the
      ones it changed, once each, and leaves every other record alone. */
  lemma SweepSettles(s: Store, cfg: Config, now: int, id: string)
    requires OrderExact(s) && id in s.byId
    ensures var r, r' := s.byId[id], Sweep(s, cfg, now).byId[id];
      && !Due(cfg, r', now)
      && (id in SweptIds(s, cfg, now) <==> r' != r)
      && (r' != r <==> r.status == Active && (PastTtl(r, now) || PastHeartbeat(cfg, r, now)))
      && (r' != r ==> r'.status == if PastTtl(r, now) then Expired else Revoked)
      && Distinct(SweptIds(s, cfg, now))
  {
    FilterDistinct(s.order, DueIn(cfg, s.byId, now));
    assert DueIn(cfg, s.byId, now)(id) <==> Due(cfg, s.byId[id], now);
    assert id in s.order;
  }
}
