/** The credential manager: three indexed maps and the calls that change them.
    Each call is proved to be the matching transition of `CredentialStore`. */
module CredentialManager {
  import opened Prelude
  import opened Ordering
  import opened Scopes
  import opened ScopeMateriality
  import opened CredentialStore

  class Manager {
    var byId: map<string, Record>
    var order: seq<string>
    var byToken: map<string, string>
    var byOperator: map<string, seq<string>>
    const cfg: Config

    function View(): Store
      reads this
    {
      Store(byId, order, byToken, byOperator)
    }

    constructor (cfg: Config)
      ensures View() == EMPTY && this.cfg == cfg
    {
      byId, order, byToken, byOperator := map[], [], map[], map[];
      this.cfg := cfg;
    }

    method UpsertRecord(record: Record)
      modifies this
      ensures View() == old(Upsert(View(), record))
    {
      if record.credentialId !in byId {
        order := order + [record.credentialId];
      }
      byId := byId[record.credentialId := record];
      byToken := byToken[record.token := record.credentialId];
      var ids := if record.operatorId in byOperator then byOperator[record.operatorId] else [];
      if record.credentialId !in ids {
        ids := ids + [record.credentialId];
      }
      byOperator := byOperator[record.operatorId := ids];
    }

    method GetActiveForOperator(operatorId: string) returns (active: seq<string>)
      ensures active == ActiveIds(View(), operatorId)
    {
      active := [];
      if operatorId !in byOperator {
        return;
      }
      var ids := byOperator[operatorId];
      for i := 0 to |ids|
        invariant active == Filter(ids[..i], IsActive(byId))
      {
        assert ids[..i + 1] == ids[..i] + [ids[i]];
        FilterSnoc(ids[..i], ids[i], IsActive(byId));
        if ids[i] in byId && byId[ids[i]].status == Active {
          active := active + [ids[i]];
        }
      }
      assert ids[..|ids|] == ids;
    }

    /** Nothing happens to a credential that does not exist. */
    method RevokeRecordById(id: string, reason: string, now: int)
      modifies this`byId
      ensures View() == old(RevokeRecord(View(), id, reason, now))
    {
      if id in byId {
        byId := byId[id := AsRevoked(byId[id], reason, now)];
      }
    }

    method IssueCredential(r: Request, now: int) returns (record: Record)
      modifies this
      ensures (View(), record) == old(Issue(View(), cfg, r, now))
    {
      var scopes := RequestedScopes(r);
      var hash := PolicyHashOf(cfg, scopes, r.chatIds);
      EvictAtLimit(r.operatorId, now);
      var currentActive := GetActiveForOperator(r.operatorId);
      var twin := FindByHash(currentActive, hash);
      if twin.Some? {
        return byId[twin.value];
      }
      var resolved := ResolveScopeSet(scopes);
      var ttlMs := (if r.ttlSeconds.Some? then r.ttlSeconds.value else cfg.defaultTtlSeconds) * 1000;
      record := Record(r.freshId, r.freshToken, r.operatorId, r.chatIds, scopes, resolved, hash, Active, 30, now, now,
                       now + ttlMs, if r.issuedBy.Some? then r.issuedBy.value else "owner", ttlMs, None, None);
      UpsertRecord(record);
    }

    method EvictAtLimit(operatorId: string, now: int)
      modifies this
      ensures View() == old(AfterEviction(View(), cfg, operatorId, now))
    {
      var active := GetActiveForOperator(operatorId);
      if |active| >= cfg.maxConcurrentPerOperator {
        var sorted := Sort(active, IssuedBefore(byId));
        if sorted != [] {
          RevokeRecordById(sorted[0], "policy-violation", now);
        }
      }
    }

    /** The first listed credential with the given policy hash. */
    method FindByHash(ids: seq<string>, hash: string) returns (found: Option<string>)
      ensures found == if Filter(ids, HasHash(byId, hash)) == [] then None else Some(Filter(ids, HasHash(byId, hash))[0])
      ensures found.Some? ==> found.value in byId
    {
      for i := 0 to |ids|
        invariant Filter(ids[..i], HasHash(byId, hash)) == []
      {
        assert ids[..i + 1] == ids[..i] + [ids[i]];
        FilterSnoc(ids[..i], ids[i], HasHash(byId, hash));
        if ids[i] in byId && byId[ids[i]].policyHash == hash {
          FilterFirst(ids, i + 1, HasHash(byId, hash));
          return Some(ids[i]);
        }
      }
      assert ids[..|ids|] == ids;
      found := None;
    }

    lemma {:induction false} FilterFirst(ids: seq<string>, n: nat, p: string -> bool)
      requires n <= |ids| && Filter(ids[..n], p) != []
      ensures Filter(ids, p) != [] && Filter(ids, p)[0] == Filter(ids[..n], p)[0]
    {
      if n == |ids| {
        assert ids[..n] == ids;
      } else {
        var front := ids[..|ids| - 1];
        assert front[..n] == ids[..n];
        FilterFirst(front, n, p);
      }
    }

    method GetCredentialByToken(token: string, now: int) returns (answer: Answer)
      modifies this`byId
      ensures (View(), answer) == old(GetByToken(View(), token, now))
    {
      if token !in byToken || byToken[token] !in byId {
        return Err(NotFound);
      }
      var id := byToken[token];
      var record := byId[id];
      if now >= record.expiresAt {
        byId := byId[id := record.(status := Expired)];
        return Err(CredentialExpired);
      }
      if record.status != Active {
        return Err(CredentialExpired);
      }
      answer := Ok(record);
    }

    method RecordHeartbeat(id: string, now: int) returns (answer: Answer)
      modifies this`byId
      ensures (View(), answer) == old(OnActive(View(), id, Beat(now)))
    {
      if id !in byId {
        return Err(NotFound);
      }
      if byId[id].status != Active {
        return Err(CredentialExpired);
      }
      byId := byId[id := byId[id].(lastHeartbeat := now)];
      answer := Ok(byId[id]);
    }

    method RenewCredential(id: string, now: int) returns (answer: Answer)
      modifies this`byId
      ensures (View(), answer) == old(Renew(View(), cfg, id, now))
      ensures answer.Ok? <==> old(id in byId && byId[id].status == Active && byId[id].expiresAt <= now + 1000 * cfg.renewalWindowSeconds)
      ensures answer.Ok? ==> id in byId && byId[id] == answer.value == old(byId[id]).(expiresAt := now + old(byId[id]).ttlMs)
    {
      if id !in byId {
        return Err(NotFound);
      }
      var record := byId[id];
      if record.status != Active {
        return Err(CredentialExpired);
      }
      if record.expiresAt - now > cfg.renewalWindowSeconds * 1000 {
        return Err(NotInRenewalWindow);
      }
      byId := byId[id := record.(expiresAt := now + record.ttlMs)];
      answer := Ok(byId[id]);
    }

    method UpdateCredentialScopes(id: string, scopes: ScopeSet) returns (answer: Answer)
      modifies this`byId
      ensures (View(), answer) == old(OnActive(View(), id, Rescoped(cfg, scopes)))
    {
      if id !in byId {
        return Err(NotFound);
      }
      var record := byId[id];
      if record.status != Active {
        return Err(CredentialExpired);
      }
      var resolved := ResolveScopeSet(scopes);
      byId := byId[id := record.(effectiveScopes := scopes, resolvedScopes := resolved,
                                 policyHash := PolicyHashOf(cfg, scopes, record.chatIds))];
      answer := Ok(byId[id]);
    }

    method RevokeCredential(id: string, reason: string, now: int) returns (answer: Answer)
      modifies this`byId
      ensures (View(), answer) == old(CredentialStore.RevokeCredential(View(), id, reason, now))
    {
      if id !in byId {
        return Err(NotFound);
      }
      RevokeRecordById(id, reason, now);
      answer := Ok(byId[id]);
    }

    method RevokeAllCredentials(operatorId: string, reason: string, now: int)
      modifies this`byId
      ensures View() == old(RevokeAll(View(), operatorId, reason, now))
    {
      var active := GetActiveForOperator(operatorId);
      for i := 0 to |active|
        invariant View() == old(RevokeEach(View(), active[..i], reason, now))
      {
        assert active[..i + 1][..i] == active[..i];
        RevokeRecordById(active[i], reason, now);
      }
      assert active[..|active|] == active;
    }

    method CheckMaterialityOf(id: string, scopes: ScopeSet) returns (check: Option<Check>)
      ensures check == if id in byId then Some(Materiality(byId[id].effectiveScopes, scopes)) else None
    {
      if id !in byId {
        return None;
      }
      var result := CheckMateriality(byId[id].effectiveScopes, scopes);
      check := Some(result);
    }

    /** Visits the records in store order, rewriting the ones that are due
        while the walk goes on. */
    method SweepExpired(now: int) returns (swept: seq<Record>)
      requires OrderExact(View())
      modifies this`byId
      ensures View() == old(Sweep(View(), cfg, now))
      ensures SweptSoFar(old(byId), old(SweptIds(View(), cfg, now)), swept, now)
    {
      ghost var before := byId;
      swept := [];
      assert SweptUpTo(before, [], now) == before;
      for i := 0 to |order|
        invariant byId == SweptUpTo(before, order[..i], now)
        invariant SweptSoFar(before, Filter(order[..i], DueIn(cfg, before, now)), swept, now)
      {
        SweepNext(before, order, i, now);
        SweptNext(before, order, i, swept, now);
        var one := SweepOne(order[i], now);
        swept := Appended(swept, one);
      }
      SweepEnd(before, order, now);
    }

    lemma SweepNext(before: map<string, Record>, ids: seq<string>, i: nat, now: int)
      requires i < |ids| && Distinct(ids) && forall id :: id in ids ==> id in before
      ensures ids[i] in before && SweptUpTo(before, ids[..i], now)[ids[i]] == before[ids[i]]
      ensures SweptUpTo(before, ids[..i + 1], now)
           == SweptUpTo(before, ids[..i], now)[ids[i] := SweptRecord(cfg, before[ids[i]], now)]
      ensures Filter(ids[..i + 1], DueIn(cfg, before, now))
           == Filter(ids[..i], DueIn(cfg, before, now)) + if Due(cfg, before[ids[i]], now) then [ids[i]] else []
    {
      assert ids[i] in ids;
      assert ids[..i + 1] == ids[..i] + [ids[i]];
      FilterSnoc(ids[..i], ids[i], DueIn(cfg, before, now));
      assert ids[i] !in ids[..i];
    }

    function Appended(swept: seq<Record>, one: Option<Record>): seq<Record> {
      if one.Some? then swept + [one.value] else swept
    }

    /** The record of place `i`, if it is due, joins those already swept. */
    lemma SweptNext(before: map<string, Record>, ids: seq<string>, i: nat, swept: seq<Record>, now: int)
      requires i < |ids| && ids[i] in before
      requires SweptSoFar(before, Filter(ids[..i], DueIn(cfg, before, now)), swept, now)
      requires Filter(ids[..i + 1], DueIn(cfg, before, now))
            == Filter(ids[..i], DueIn(cfg, before, now)) + if Due(cfg, before[ids[i]], now) then [ids[i]] else []
      ensures var r := before[ids[i]];
        SweptSoFar(before, Filter(ids[..i + 1], DueIn(cfg, before, now)),
                   Appended(swept, if Due(cfg, r, now) then Some(SweptRecord(cfg, r, now)) else None), now)
    {
    }

    lemma SweepEnd(before: map<string, Record>, ids: seq<string>, now: int)
      requires forall id :: id in before ==> id in ids
      ensures ids[..|ids|] == ids
      ensures SweptUpTo(before, ids, now) == map id | id in before :: SweptRecord(cfg, before[id], now)
    {
    }

    method SweepOne(id: string, now: int) returns (swept: Option<Record>)
      requires id in byId
      modifies this`byId
      ensures byId == old(byId[id := SweptRecord(cfg, byId[id], now)])
      ensures swept == old(if Due(cfg, byId[id], now) then Some(SweptRecord(cfg, byId[id], now)) else None)
    {
      var record := byId[id];
      swept := None;
      if record.status == Active {
        if now >= record.expiresAt {
          byId := byId[id := record.(status := Expired)];
          swept := Some(byId[id]);
        } else if now >= HeartbeatDeadline(cfg, record) {
          byId := byId[id := AsRevoked(record, "heartbeat-timeout", now)];
          swept := Some(byId[id]);
        }
      }
    }

    ghost function SweptUpTo(before: map<string, Record>, done: seq<string>, now: int): map<string, Record> {
      map id | id in before :: if id in done then SweptRecord(cfg, before[id], now) else before[id]
    }

    /** `swept` holds, for each listed identifier, the record it became. */
    ghost predicate SweptSoFar(before: map<string, Record>, ids: seq<string>, swept: seq<Record>, now: int) {
      |swept| == |ids|
      && forall i :: 0 <= i < |ids| ==> ids[i] in before && swept[i] == SweptRecord(cfg, before[ids[i]], now)
    }
  }
}
