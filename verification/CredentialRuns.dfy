/** What holds in every reachable state of the credential manager. */
module CredentialRuns {
  import opened Prelude
  import opened Ordering
  import opened CredentialStore

  // ---- Rewriting steps ---------------------------------------------------

  lemma RewritesTransitive(a: Store, b: Store, c: Store)
    requires Rewrites(a, b) && Rewrites(b, c)
    ensures Rewrites(a, c)
  {
    forall id | id in a.byId
      ensures Later(a.byId[id], c.byId[id])
    {
      assert Later(a.byId[id], b.byId[id]) && Later(b.byId[id], c.byId[id]);
    }
  }

  lemma RewritesKeepsOrder(s: Store, s': Store)
    requires OrderExact(s) && Rewrites(s, s')
    ensures OrderExact(s')
  {
    forall id | id in s'.byId
      ensures s'.byId[id].credentialId == id
    {
      assert Later(s.byId[id], s'.byId[id]);
    }
  }

  lemma RewritesKeepsTokens(s: Store, s': Store)
    requires TokensExact(s) && Rewrites(s, s')
    ensures TokensExact(s')
  {
    forall id | id in s'.byId
      ensures s'.byId[id].token == s.byId[id].token
    {
      assert Later(s.byId[id], s'.byId[id]);
    }
  }

  lemma RewritesKeepsOperators(s: Store, s': Store)
    requires OperatorsExact(s) && Rewrites(s, s')
    ensures OperatorsExact(s')
  {
    forall o, id
      ensures id in IdsOf(s', o) <==> id in s'.byId && s'.byId[id].operatorId == o
    {
      assert IdsOf(s', o) == IdsOf(s, o);
      assert id in s.byId ==> Later(s.byId[id], s'.byId[id]);
    }
    forall o
      ensures Distinct(IdsOf(s', o))
    {
      assert IdsOf(s', o) == IdsOf(s, o);
    }
  }

  lemma RewritesKeepsIndexed(s: Store, s': Store)
    requires Indexed(s) && Rewrites(s, s')
    ensures Indexed(s')
  {
    RewritesKeepsOrder(s, s');
    RewritesKeepsTokens(s, s');
    RewritesKeepsOperators(s, s');
  }

  lemma {:induction false} FilterShrinks<T>(ids: seq<T>, p: T -> bool, q: T -> bool)
    requires forall x :: x in ids && q(x) ==> p(x)
    ensures |Filter(ids, q)| <= |Filter(ids, p)|
  {
    if ids != [] {
      FilterShrinks(ids[..|ids| - 1], p, q);
    }
  }

  lemma {:induction false} FilterLosesOne<T>(ids: seq<T>, p: T -> bool, q: T -> bool, x: T)
    requires forall y :: y in ids && q(y) ==> p(y)
    requires x in ids && p(x) && !q(x)
    ensures |Filter(ids, q)| < |Filter(ids, p)|
  {
    var front := ids[..|ids| - 1];
    if x in front {
      FilterLosesOne(front, p, q, x);
    } else {
      FilterShrinks(front, p, q);
    }
  }

  lemma RewritesActive(s: Store, s': Store, operatorId: string)
    requires Indexed(s) && Rewrites(s, s')
    ensures |ActiveIds(s', operatorId)| <= |ActiveIds(s, operatorId)|
  {
    forall id | id in IdsOf(s, operatorId) && IsActive(s'.byId)(id)
      ensures IsActive(s.byId)(id)
    {
      assert Later(s.byId[id], s'.byId[id]);
    }
    FilterShrinks(IdsOf(s, operatorId), IsActive(s.byId), IsActive(s'.byId));
  }

  lemma RewritesKeepsBounded(s: Store, s': Store, cfg: Config)
    requires Indexed(s) && Bounded(s, cfg) && Rewrites(s, s')
    ensures Bounded(s', cfg)
  {
    forall o {:trigger ActiveIds(s', o)}
      ensures |ActiveIds(s', o)| <= cfg.maxConcurrentPerOperator
    {
      RewritesActive(s, s', o);
    }
  }

  // ---- Each call ---------------------------------------------------------

  /** Replacing one record by a later one is a rewrite. */
  lemma ReplaceRewrites(s: Store, id: string, r: Record)
    requires id in s.byId && Later(s.byId[id], r)
    ensures Rewrites(s, s.(byId := s.byId[id := r]))
  {
  }

  lemma RevokeRecordRewrites(s: Store, id: string, reason: string, now: int)
    ensures Rewrites(s, RevokeRecord(s, id, reason, now))
  {
    if id in s.byId {
      ReplaceRewrites(s, id, AsRevoked(s.byId[id], reason, now));
    }
  }

  lemma {:induction false} RevokeEachRewrites(s: Store, ids: seq<string>, reason: string, now: int)
    ensures Rewrites(s, RevokeEach(s, ids, reason, now))
  {
    if ids != [] {
      var front := RevokeEach(s, ids[..|ids| - 1], reason, now);
      RevokeEachRewrites(s, ids[..|ids| - 1], reason, now);
      RevokeRecordRewrites(front, ids[|ids| - 1], reason, now);
      RewritesTransitive(s, front, RevokeEach(s, ids, reason, now));
    }
  }

  lemma OnActiveRewrites(s: Store, id: string, update: Record -> Record)
    requires id in s.byId ==> Later(s.byId[id], update(s.byId[id]))
    ensures Rewrites(s, OnActive(s, id, update).0)
  {
    if id in s.byId && s.byId[id].status == Active {
      ReplaceRewrites(s, id, update(s.byId[id]));
    }
  }

  lemma RewritesReflexive(s: Store)
    ensures Rewrites(s, s)
  {
  }

  /** Renewal never moves an expiry earlier. */
  lemma RenewRewrites(s: Store, cfg: Config, id: string, now: int)
    requires Derived(s, cfg, now)
    ensures Rewrites(s, Renew(s, cfg, id, now).0)
  {
    if Renew(s, cfg, id, now).0 == s {
      RewritesReflexive(s);
    } else {
      assert RecordDerived(cfg, s.byId[id], now);
      ReplaceRewrites(s, id, Renewed(now)(s.byId[id]));
    }
  }

  lemma GetByTokenRewrites(s: Store, token: string, now: int)
    ensures Rewrites(s, GetByToken(s, token, now).0)
  {
    if token in s.byToken && s.byToken[token] in s.byId {
      ReplaceRewrites(s, s.byToken[token], s.byId[s.byToken[token]].(status := Expired));
    }
  }

  lemma SweepRewrites(s: Store, cfg: Config, now: int)
    ensures Rewrites(s, Sweep(s, cfg, now))
  {
  }

  /** Every call that does not issue only rewrites records. */
  lemma StepRewrites(s: Store, cfg: Config, call: Call)
    requires Derived(s, cfg, call.now) && !call.op.IssueOp?
    ensures Rewrites(s, Step(s, cfg, call))
  {
    match call.op
    case GetByTokenOp(token) => GetByTokenRewrites(s, token, call.now);
    case HeartbeatOp(id) => OnActiveRewrites(s, id, Beat(call.now));
    case RenewOp(id) => RenewRewrites(s, cfg, id, call.now);
    case UpdateScopesOp(id, scopes) => OnActiveRewrites(s, id, Rescoped(cfg, scopes));
    case RevokeOp(id, reason) => RevokeRecordRewrites(s, id, reason, call.now);
    case RevokeAllOp(o, reason) => RevokeEachRewrites(s, ActiveIds(s, o), reason, call.now);
    case SweepOp => SweepRewrites(s, cfg, call.now);
  }

  lemma RevokeRecordDerived(s: Store, cfg: Config, id: string, reason: string, now: int)
    requires Derived(s, cfg, now)
    ensures Derived(RevokeRecord(s, id, reason, now), cfg, now)
  {
    if id in s.byId {
      assert RecordDerived(cfg, s.byId[id], now);
    }
  }

  lemma {:induction false} RevokeEachDerived(s: Store, cfg: Config, ids: seq<string>, reason: string, now: int)
    requires Derived(s, cfg, now)
    ensures Derived(RevokeEach(s, ids, reason, now), cfg, now)
  {
    if ids != [] {
      RevokeEachDerived(s, cfg, ids[..|ids| - 1], reason, now);
      RevokeRecordDerived(RevokeEach(s, ids[..|ids| - 1], reason, now), cfg, ids[|ids| - 1], reason, now);
    }
  }

  lemma DerivedLater(s: Store, cfg: Config, clock: int, now: int)
    requires Derived(s, cfg, clock) && clock <= now
    ensures Derived(s, cfg, now)
  {
    forall id | id in s.byId
      ensures RecordDerived(cfg, s.byId[id], now)
    {
      assert RecordDerived(cfg, s.byId[id], clock);
    }
  }

  lemma OnActiveDerived(s: Store, cfg: Config, id: string, update: Record -> Record, now: int)
    requires Derived(s, cfg, now)
    requires id in s.byId ==> RecordDerived(cfg, update(s.byId[id]), now)
    ensures Derived(OnActive(s, id, update).0, cfg, now)
  {
  }

  lemma GetByTokenDerived(s: Store, cfg: Config, token: string, now: int)
    requires Derived(s, cfg, now)
    ensures Derived(GetByToken(s, token, now).0, cfg, now)
  {
    if token in s.byToken && s.byToken[token] in s.byId {
      assert RecordDerived(cfg, s.byId[s.byToken[token]], now);
    }
  }

  lemma SweepDerived(s: Store, cfg: Config, now: int)
    requires Derived(s, cfg, now)
    ensures Derived(Sweep(s, cfg, now), cfg, now)
  {
    forall id | id in s.byId
      ensures RecordDerived(cfg, SweptRecord(cfg, s.byId[id], now), now)
    {
      assert RecordDerived(cfg, s.byId[id], now);
    }
  }

  lemma StepDerived(s: Store, cfg: Config, call: Call)
    requires Derived(s, cfg, call.now) && !call.op.IssueOp?
    ensures Derived(Step(s, cfg, call), cfg, call.now)
  {
    match call.op
    case GetByTokenOp(token) => GetByTokenDerived(s, cfg, token, call.now);
    case HeartbeatOp(id) =>
      assert id in s.byId ==> RecordDerived(cfg, s.byId[id], call.now);
      OnActiveDerived(s, cfg, id, Beat(call.now), call.now);
    case RenewOp(id) =>
      assert id in s.byId ==> RecordDerived(cfg, s.byId[id], call.now);
      OnActiveDerived(s, cfg, id, Renewed(call.now), call.now);
    case UpdateScopesOp(id, scopes) =>
      assert id in s.byId ==> RecordDerived(cfg, s.byId[id], call.now);
      OnActiveDerived(s, cfg, id, Rescoped(cfg, scopes), call.now);
    case RevokeOp(id, reason) => RevokeRecordDerived(s, cfg, id, reason, call.now);
    case RevokeAllOp(o, reason) => RevokeEachDerived(s, cfg, ActiveIds(s, o), reason, call.now);
    case SweepOp => SweepDerived(s, cfg, call.now);
  }

  // ---- Issuing -----------------------------------------------------------

  /** When the operator is at its limit, what is given up is an active record
      of that operator and no active record of it was issued earlier. */
  lemma EvictedIsOldest(s: Store, cfg: Config, operatorId: string)
    requires Indexed(s) && cfg.maxConcurrentPerOperator >= 1
    ensures var evicted := Evicted(s, cfg, operatorId);
      && (evicted.Some? <==> |ActiveIds(s, operatorId)| >= cfg.maxConcurrentPerOperator)
      && (evicted.Some? ==>
            && evicted.value in s.byId && s.byId[evicted.value].status == Active
            && s.byId[evicted.value].operatorId == operatorId
            && evicted.value in ActiveIds(s, operatorId)
            && forall id :: id in ActiveIds(s, operatorId) ==> s.byId[evicted.value].issuedAt <= s.byId[id].issuedAt)
  {
    var active, less := ActiveIds(s, operatorId), IssuedBefore(s.byId);
    SortMultiset(active, less);
    if Evicted(s, cfg, operatorId).Some? {
      var sorted := Sort(active, less);
      SortElements(active, less, sorted[0]);
      forall id | id in active
        ensures s.byId[sorted[0]].issuedAt <= s.byId[id].issuedAt
      {
        FirstIsOldest(s, operatorId, id);
      }
    }
  }

  lemma FirstIsOldest(s: Store, operatorId: string, id: string)
    requires id in ActiveIds(s, operatorId)
    ensures var sorted := Sort(ActiveIds(s, operatorId), IssuedBefore(s.byId));
      sorted != [] && sorted[0] in s.byId && s.byId[sorted[0]].issuedAt <= s.byId[id].issuedAt
  {
    var active := ActiveIds(s, operatorId);
    var sorted := Sort(active, IssuedBefore(s.byId));
    SortElements(active, IssuedBefore(s.byId), id);
    SortElements(active, IssuedBefore(s.byId), sorted[0]);
    OldestFirst(active, s.byId);
    var i :| 0 <= i < |sorted| && sorted[i] == id;
    if i > 0 {
      assert !IssuedBefore(s.byId)(sorted[i], sorted[0]);
    }
  }

  /** Sorting by issue time sorts, because every listed id has a record. */
  lemma {:induction false} OldestFirst(ids: seq<string>, byId: map<string, Record>)
    requires forall id :: id in ids ==> id in byId
    ensures Sorted(Sort(ids, IssuedBefore(byId)), IssuedBefore(byId))
  {
    if ids != [] {
      var front, less := ids[..|ids| - 1], IssuedBefore(byId);
      OldestFirst(front, byId);
      forall id
        ensures id in Sort(front, less) ==> id in byId
      {
        SortElements(front, less, id);
      }
      InsertOldest(Sort(front, less), ids[|ids| - 1], byId);
    }
  }

  lemma {:induction false} InsertOldest(ids: seq<string>, x: string, byId: map<string, Record>)
    requires x in byId && forall id :: id in ids ==> id in byId
    requires Sorted(ids, IssuedBefore(byId))
    ensures Sorted(Insert(ids, x, IssuedBefore(byId)), IssuedBefore(byId))
  {
    var less := IssuedBefore(byId);
    if ids != [] && less(x, ids[|ids| - 1]) {
      var front := ids[..|ids| - 1];
      InsertOldest(front, x, byId);
      InsertMultiset(front, x, less);
      var r := Insert(front, x, less);
      forall i | 0 <= i < |r|
        ensures !less(ids[|ids| - 1], r[i])
      {
        assert r[i] in multiset(r);
        assert r[i] == x || r[i] in front;
      }
    }
  }

  /** Giving up a credential leaves room for another. */
  lemma EvictionMakesRoom(s: Store, cfg: Config, operatorId: string, now: int)
    requires Indexed(s) && Bounded(s, cfg) && cfg.maxConcurrentPerOperator >= 1
    ensures var s1 := AfterEviction(s, cfg, operatorId, now);
      && Rewrites(s, s1)
      && |ActiveIds(s1, operatorId)| < cfg.maxConcurrentPerOperator
  {
    var evicted := Evicted(s, cfg, operatorId);
    EvictedIsOldest(s, cfg, operatorId);
    if evicted.Some? {
      var s1 := AfterEviction(s, cfg, operatorId, now);
      RevokeRecordRewrites(s, evicted.value, "policy-violation", now);
      forall id | id in IdsOf(s, operatorId) && IsActive(s1.byId)(id)
        ensures IsActive(s.byId)(id)
      {
        assert Later(s.byId[id], s1.byId[id]);
      }
      FilterLosesOne(IdsOf(s, operatorId), IsActive(s.byId), IsActive(s1.byId), evicted.value);
      assert |ActiveIds(s, operatorId)| <= cfg.maxConcurrentPerOperator;
    }
  }

  lemma UpsertOrder(s: Store, r: Record)
    requires OrderExact(s) && r.credentialId !in s.byId
    ensures OrderExact(Upsert(s, r))
  {
  }

  lemma UpsertTokens(s: Store, r: Record)
    requires TokensExact(s) && r.credentialId !in s.byId && r.token !in s.byToken
    ensures TokensExact(Upsert(s, r))
  {
    var after := Upsert(s, r);
    forall id | id in after.byId
      ensures after.byId[id].token in after.byToken && after.byToken[after.byId[id].token] == id
    {
      assert id != r.credentialId ==> s.byId[id].token in s.byToken;
    }
  }

  lemma UpsertIds(s: Store, r: Record, operatorId: string)
    requires OperatorsExact(s) && r.credentialId !in s.byId
    ensures IdsOf(Upsert(s, r), operatorId)
         == IdsOf(s, operatorId) + if operatorId == r.operatorId then [r.credentialId] else []
    ensures r.credentialId !in IdsOf(s, operatorId)
  {
    assert r.credentialId !in IdsOf(s, operatorId);
  }

  lemma UpsertOperators(s: Store, r: Record)
    requires OperatorsExact(s) && r.credentialId !in s.byId
    ensures OperatorsExact(Upsert(s, r))
  {
    var after := Upsert(s, r);
    forall o
      ensures Distinct(IdsOf(after, o))
      ensures forall id :: id in IdsOf(after, o) <==> id in after.byId && after.byId[id].operatorId == o
    {
      UpsertIds(s, r, o);
      assert Distinct(IdsOf(s, o));
      assert forall id :: id in IdsOf(s, o) <==> id in s.byId && s.byId[id].operatorId == o;
    }
  }

  lemma UpsertActive(s: Store, r: Record, operatorId: string)
    requires OperatorsExact(s) && r.credentialId !in s.byId
    ensures ActiveIds(Upsert(s, r), operatorId)
         == ActiveIds(s, operatorId) + if operatorId == r.operatorId && r.status == Active then [r.credentialId] else []
  {
    var after, ids := Upsert(s, r), IdsOf(s, operatorId);
    UpsertIds(s, r, operatorId);
    forall id | id in ids
      ensures IsActive(s.byId)(id) == IsActive(after.byId)(id)
    {
      assert id != r.credentialId;
    }
    FilterCongruent(ids, IsActive(s.byId), IsActive(after.byId));
    FilterSnoc(ids, r.credentialId, IsActive(after.byId));
    assert IsActive(after.byId)(r.credentialId) <==> r.status == Active;
    assert Filter(ids, IsActive(after.byId)) == ActiveIds(s, operatorId);
  }

  lemma UpsertBounded(s: Store, r: Record, cfg: Config)
    requires Indexed(s) && Bounded(s, cfg) && r.credentialId !in s.byId
    requires |ActiveIds(s, r.operatorId)| < cfg.maxConcurrentPerOperator
    ensures Bounded(Upsert(s, r), cfg)
  {
    forall o {:trigger ActiveIds(Upsert(s, r), o)}
      ensures |ActiveIds(Upsert(s, r), o)| <= cfg.maxConcurrentPerOperator
    {
      UpsertActive(s, r, o);
      assert |ActiveIds(s, o)| <= cfg.maxConcurrentPerOperator;
    }
  }

  lemma AfterEvictionKeepsInv(s: Store, cfg: Config, operatorId: string, now: int)
    requires Inv(s, cfg, now) && cfg.maxConcurrentPerOperator >= 1
    ensures Inv(AfterEviction(s, cfg, operatorId, now), cfg, now)
  {
    var s1 := AfterEviction(s, cfg, operatorId, now);
    EvictionMakesRoom(s, cfg, operatorId, now);
    RewritesKeepsIndexed(s, s1);
    RewritesKeepsBounded(s, s1, cfg);
    var evicted := Evicted(s, cfg, operatorId);
    if evicted.Some? {
      RevokeRecordDerived(s, cfg, evicted.value, "policy-violation", now);
    }
  }

  lemma IssueKeepsInv(s: Store, cfg: Config, r: Request, now: int)
    requires Inv(s, cfg, now) && cfg.maxConcurrentPerOperator >= 1 && IsFresh(s, r)
    ensures Inv(Issue(s, cfg, r, now).0, cfg, now)
  {
    var s1, after := AfterEviction(s, cfg, r.operatorId, now), Issue(s, cfg, r, now).0;
    AfterEvictionKeepsInv(s, cfg, r.operatorId, now);
    EvictionMakesRoom(s, cfg, r.operatorId, now);
    if after == s1 {
    } else {
      var record := Fresh(cfg, r, now);
      assert after == Upsert(s1, record);
      UpsertOrder(s1, record);
      UpsertTokens(s1, record);
      UpsertOperators(s1, record);
      UpsertBounded(s1, record, cfg);
      UpsertDerived(s1, record, cfg, now);
    }
  }

  lemma UpsertDerived(s: Store, r: Record, cfg: Config, now: int)
    requires Derived(s, cfg, now) && RecordDerived(cfg, r, now)
    ensures Derived(Upsert(s, r), cfg, now)
  {
  }

  lemma StepKeepsInv(s: Store, cfg: Config, call: Call, clock: int)
    requires Inv(s, cfg, clock) && Sane(s, call, clock) && cfg.maxConcurrentPerOperator >= 1
    ensures Inv(Step(s, cfg, call), cfg, call.now)
  {
    DerivedLater(s, cfg, clock, call.now);
    if call.op.IssueOp? {
      IssueKeepsInv(s, cfg, call.op.request, call.now);
    } else {
      var after := Step(s, cfg, call);
      StepRewrites(s, cfg, call);
      StepDerived(s, cfg, call);
      RewritesKeepsIndexed(s, after);
      RewritesKeepsBounded(s, after, cfg);
    }
  }

  lemma EmptyInv(cfg: Config, clock: int)
    requires cfg.maxConcurrentPerOperator >= 1
    ensures Inv(EMPTY, cfg, clock)
  {
  }

  /** In every reachable state the indexes are exact, the derived fields agree,
      and no operator exceeds its limit. */
  lemma {:induction false} RunKeepsInv(s: Store, cfg: Config, calls: seq<Call>, clock: int)
    requires Inv(s, cfg, clock) && SaneRun(s, cfg, calls, clock) && cfg.maxConcurrentPerOperator >= 1
    ensures Inv(Run(s, cfg, calls), cfg, Clock(calls, clock))
    decreases |calls|
  {
    if calls != [] {
      var s1 := Step(s, cfg, calls[0]);
      StepKeepsInv(s, cfg, calls[0], clock);
      RunKeepsInv(s1, cfg, calls[1..], calls[0].now);
      RunUnfolds(s, cfg, calls, clock);
    }
  }

  lemma RunUnfolds(s: Store, cfg: Config, calls: seq<Call>, clock: int)
    requires calls != []
    ensures Run(s, cfg, calls) == Run(Step(s, cfg, calls[0]), cfg, calls[1..])
    ensures Clock(calls, clock) == Clock(calls[1..], calls[0].now)
  {
  }
}
