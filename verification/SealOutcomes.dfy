/** What one call on the seal manager comes to, told from the outside: exactly
    when it succeeds, what is stored then, and that a call that fails leaves
    everything as it was. */
module SealOutcomes {
  import opened Prelude
  import opened Scopes
  import opened SealDelta
  import opened SealChain
  import opened SealBook
  import opened SealRuns
  import opened SealLaws

  /** The payload says what was resolved, under this identifier and time. */
  predicate Carries(p: Payload, input: Input, id: string, now: int) {
    && p.sealId == id && p.issuedAt == now
    && p.credentialId == input.credentialId && p.operatorId == input.operatorId && p.chatId == input.chatId
    && p.scopeMode == input.scopeMode && p.permissions == input.permissions && p.adminAccess == input.adminAccess
    && p.bypassed == input.bypassed && p.trustTier == input.trustTier
    && p.operatorDisclosures == input.operatorDisclosures && p.provenanceMap == input.provenanceMap
  }

  /** The outside world lets this payload through. */
  predicate LetsThrough(o: Outside, p: Payload, schema: Schema) {
    ValidIds(p) && schema(p) && o.signature.Some? && o.published
  }

  /** `e` joins the stored seals as the newest and as the pair's head, and
      nothing else changes. */
  ghost predicate Gains(b: Book, after: Book, key: string, e: Envelope, input: Input) {
    var id := e.chain.current.sealId;
    && id !in b.seals && after.seals == b.seals[id := e]
    && after.order == b.order + [id] && after.inputs == b.inputs[id := input]
    && after.current == b.current[key := e] && after.revoked == b.revoked
  }

  /** The head of the pair already says all that was resolved. */
  ghost predicate AlreadySaid(b: Book, key: string, input: Input)
    requires b.inputs.Keys == b.seals.Keys && HeadsStored(b)
  {
    && key in b.current
    && SameLists(b.current[key].chain.current.permissions, input.permissions)
    && (assert HeadStored(b, key); SameDisclosures(b.inputs[b.current[key].Id()], input))
  }

  // ---- Issuing ------------------------------------------------------------

  lemma EmitDecides(b: Book, key: string, input: Input, previous: Option<Payload>, o: Outside, schema: Schema, p: Payload)
    requires o.freshId !in b.seals && Carries(p, input, o.freshId, o.now)
    ensures var (after, reply) := Emit(b, key, input, previous, o, schema);
      && (reply.Ok? <==> LetsThrough(o, p, schema))
      && (reply.Err? ==> after == b)
      && (reply.Ok? ==> reply.value == Envelope(Chain(p, previous, LinkDelta(previous, p)), o.signature.value)
                        && Gains(b, after, key, reply.value, input))
  {
    assert PayloadOf(input, o.freshId, o.now) == p;
  }

  /** Issuing succeeds exactly when the pair was resolved and is not revoked,
      and either the head already says it all or a new seal is valid, signed and
      published. Only such a seal is ever stored: it says what was resolved,
      points back to the head, and carries the difference to it. */
  lemma IssueDecides(b: Book, op: Op, schema: Schema, p: Payload)
    requires Inv(b) && Sane(b, op) && op.Issue?
    requires op.resolved.Some? ==> Carries(p, op.resolved.value, op.outside.freshId, op.outside.now)
    ensures var (after, reply) := Step(b, op, schema);
      var key, o := ChainKey(op.credentialId, op.chatId), op.outside;
      && (reply.Ok? <==> op.resolved.Some? && key !in b.revoked && (AlreadySaid(b, key, op.resolved.value) || LetsThrough(o, p, schema)))
      && (reply.Err? ==> after == b)
      && (reply.Ok? && AlreadySaid(b, key, op.resolved.value) ==> after == b && reply.value == b.current[key])
      && (reply.Ok? && !AlreadySaid(b, key, op.resolved.value) ==>
            && Gains(b, after, key, reply.value, op.resolved.value)
            && reply.value.signature == o.signature.value && reply.value.chain.current == p
            && reply.value.chain.previous == (if key in b.current then Some(b.current[key].chain.current) else None)
            && reply.value.chain.delta == (if key in b.current then PayloadDelta(b.current[key].chain.current.permissions, p.permissions)
                                           else Delta([], [], [])))
  {
    if op.resolved.Some? {
      var key, input := ChainKey(op.credentialId, op.chatId), op.resolved.value;
      IsQuietIff(b, key, input);
      EmitDecides(b, key, input, PreviousFor(b, key), op.outside, schema, p);
    }
  }

  // ---- Refreshing ---------------------------------------------------------

  lemma SameListsNoDelta(scopes: ScopeSet)
    ensures PayloadDelta(scopes, scopes) == Delta([], [], [])
  {
    DeltaEmptyIff(scopes, scopes);
  }

  /** The seal is the live head of its pair. */
  predicate IsHead(b: Book, sealId: string) {
    sealId in b.seals && b.seals[sealId].Key() in b.current && b.current[b.seals[sealId].Key()] == b.seals[sealId]
  }

  /** A stored seal is its pair's head exactly when the head carries its
      identifier, and the pair of a head is not revoked. */
  lemma HeadExact(b: Book, sealId: string)
    requires Inv(b) && sealId in b.seals
    ensures sealId in b.inputs
    ensures var key := b.seals[sealId].Key();
      && (IsHead(b, sealId) <==> key in b.current && b.current[key].Id() == sealId)
      && (IsHead(b, sealId) ==> key !in b.revoked)
  {
    assert SealStored(b, sealId);
    assert b.seals[sealId].Key() in b.current ==> HeadStored(b, b.seals[sealId].Key());
  }

  /** Refreshing emits for a live head, and otherwise does nothing. */
  lemma RefreshEither(b: Book, sealId: string, o: Outside, schema: Schema)
    requires Inv(b)
    ensures !IsHead(b, sealId) ==> Step(b, Refresh(sealId, o), schema).0 == b && Step(b, Refresh(sealId, o), schema).1.Err?
    ensures IsHead(b, sealId) ==>
      && sealId in b.inputs
      && Step(b, Refresh(sealId, o), schema)
      == Emit(b, b.seals[sealId].Key(), b.inputs[sealId], Some(b.seals[sealId].chain.current), o, schema)
  {
    if sealId in b.seals {
      HeadExact(b, sealId);
    }
  }

  /** Refreshing succeeds exactly for a live head whose renewed payload is
      valid, signed and published. The new head says what the old one said, at a
      new time and under a new identifier, and points back to it with an empty
      difference. */
  lemma RefreshDecides(b: Book, sealId: string, o: Outside, schema: Schema, p: Payload)
    requires Inv(b) && o.freshId !in b.seals
    requires sealId in b.seals ==> p == b.seals[sealId].chain.current.(sealId := o.freshId, issuedAt := o.now)
    ensures var (after, reply) := Step(b, Refresh(sealId, o), schema);
      && (reply.Ok? <==> IsHead(b, sealId) && LetsThrough(o, p, schema))
      && (reply.Err? ==> after == b)
      && (reply.Ok? ==>
            && Gains(b, after, b.seals[sealId].Key(), reply.value, b.inputs[sealId])
            && reply.value == Envelope(Chain(p, Some(b.seals[sealId].chain.current), Delta([], [], [])), o.signature.value))
  {
    RefreshEither(b, sealId, o, schema);
    if IsHead(b, sealId) {
      var head := b.seals[sealId].chain.current;
      assert SealStored(b, sealId);
      EmitDecides(b, b.seals[sealId].Key(), b.inputs[sealId], Some(head), o, schema, p);
      SameListsNoDelta(head.permissions);
    }
  }

  // ---- Revoking -----------------------------------------------------------

  /** Revoking succeeds exactly for a stored seal of a pair not yet revoked
      whose revocation is valid, signed and published. Then the pair is revoked
      and without a head, and nothing else changes. */
  lemma RevokeDecides(b: Book, sealId: string, accepted: bool, o: Outside, schema: Schema)
    ensures var (after, reply) := Step(b, Revoke(sealId, accepted, o), schema);
      && (reply.Ok? <==> sealId in b.seals && b.seals[sealId].Key() !in b.revoked
                         && accepted && o.signature.Some? && o.published)
      && (reply.Err? ==> after == b)
      && (reply.Ok? ==>
            var key := b.seals[sealId].Key();
            && after.revoked == b.revoked + {key} && key !in after.current
            && (forall k :: k != key ==> (k in after.current <==> k in b.current) && (k in b.current ==> after.current[k] == b.current[k]))
            && after.seals == b.seals && after.order == b.order && after.inputs == b.inputs)
  {
  }

  lemma {:induction false} SanePrefix(b: Book, ops: seq<Op>, schema: Schema, n: nat)
    requires SaneRun(b, ops, schema) && n < |ops|
    ensures SaneRun(b, ops[..n], schema) && Sane(Run(b, ops[..n], schema), ops[n])
    decreases |ops|
  {
    if n > 0 {
      SanePrefix(Step(b, ops[0], schema).0, ops[1..], schema, n - 1);
      assert ops[..n][1..] == ops[1..][..n - 1];
    }
  }

  /** Once a revocation has succeeded, over any later run: the pair stays
      revoked, has no head, gains no seal, and every further issue, refresh or
      revoke of it fails and changes nothing. */
  lemma RevokedForGood(b: Book, sealId: string, accepted: bool, o: Outside, ops: seq<Op>, schema: Schema, n: nat)
    requires Inv(b) && o.freshId !in b.seals && Step(b, Revoke(sealId, accepted, o), schema).1.Ok?
    requires SaneRun(Step(b, Revoke(sealId, accepted, o), schema).0, ops, schema) && n < |ops|
    ensures var p := b.seals[sealId].chain.current;
      var key, later := ChainKey(p.credentialId, p.chatId), Run(Step(b, Revoke(sealId, accepted, o), schema).0, ops[..n], schema);
      && key in later.revoked && key !in later.current
      && PairIds(later, p.credentialId, p.chatId) == PairIds(b, p.credentialId, p.chatId)
      && (Targets(later, ops[n], key) ==> Step(later, ops[n], schema).1.Err? && Step(later, ops[n], schema).0 == later)
  {
    var revoke, p := Revoke(sealId, accepted, o), b.seals[sealId].chain.current;
    var s1 := Step(b, revoke, schema).0;
    RevokeDecides(b, sealId, accepted, o, schema);
    StepKeepsInv(b, revoke, schema);
    SanePrefix(s1, ops, schema, n);
    RevocationIsFinal(s1, ops[..n], schema, p.credentialId, p.chatId);
    SamePairIds(b, s1, p.credentialId, p.chatId);
    RevokedPairRejects(Run(s1, ops[..n], schema), ops[n], schema, ChainKey(p.credentialId, p.chatId));
  }
}
