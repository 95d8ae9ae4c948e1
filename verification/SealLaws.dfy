/** What the seal manager promises over whole runs. */
module SealLaws {
  import opened Prelude
  import opened Json
  import opened JsonMeaning
  import opened Scopes
  import opened SealDelta
  import opened SealChain
  import opened SealBook
  import opened SealRuns

  // ---- One chain per pair ------------------------------------------------

  /** Seal identifiers that some envelope names as its predecessor. */
  function Referenced(envelopes: seq<Envelope>): set<string> {
    set e | e in envelopes && e.chain.previous.Some? :: e.chain.previous.value.sealId
  }

  /** The first envelope no other envelope points back to. */
  function FindHistoryHead(envelopes: seq<Envelope>): Option<Envelope> {
    FirstUnreferenced(envelopes, Referenced(envelopes))
  }

  function FirstUnreferenced(envelopes: seq<Envelope>, referenced: set<string>): Option<Envelope> {
    if envelopes == [] then None
    else if envelopes[0].Id() !in referenced then Some(envelopes[0])
    else FirstUnreferenced(envelopes[1..], referenced)
  }

  lemma {:induction false} FirstUnreferencedIsLast(envelopes: seq<Envelope>, referenced: set<string>)
    requires envelopes != []
    requires forall i :: 0 <= i < |envelopes| - 1 ==> envelopes[i].Id() in referenced
    requires envelopes[|envelopes| - 1].Id() !in referenced
    ensures FirstUnreferenced(envelopes, referenced) == Some(envelopes[|envelopes| - 1])
  {
    if |envelopes| > 1 {
      FirstUnreferencedIsLast(envelopes[1..], referenced);
    }
  }

  ghost function PayloadBefore(seals: seq<Envelope>, i: nat): Option<Payload>
    requires i < |seals|
  {
    if i == 0 then None else Some(seals[i - 1].chain.current)
  }

  /** Each seal points back to the one issued before it, the first to none. */
  ghost predicate IsChain(seals: seq<Envelope>) {
    && (forall i, j :: 0 <= i < j < |seals| ==> seals[i].Id() != seals[j].Id())
    && (forall i {:trigger PayloadBefore(seals, i)} :: 0 <= i < |seals| ==> seals[i].chain.previous == PayloadBefore(seals, i))
  }

  lemma FetchChain(seals: map<string, Envelope>, ids: seq<string>)
    requires Linked(seals, ids) && Distinct(ids)
    requires forall id :: id in ids ==> seals[id].Id() == id
    ensures IsChain(Fetch(seals, ids))
  {
    forall i | 0 <= i < |ids|
      ensures Fetch(seals, ids)[i].chain.previous == PayloadBefore(Fetch(seals, ids), i)
    {
      assert seals[ids[i]].chain.previous == Predecessor(seals, ids, i);
    }
  }

  /** The seals of a pair form one linear chain... */
  lemma PairChain(b: Book, c: string, h: string)
    requires Inv(b)
    ensures IsChain(PairSeals(b, c, h))
  {
    var ids := PairIds(b, c, h);
    FilterDistinct(b.order, InPair(b.seals, c, h));
    forall id | id in ids
      ensures b.seals[id].Id() == id
    {
      assert SealStored(b, id);
    }
    assert Linked(b.seals, ids);
    FetchChain(b.seals, ids);
  }

  /** ...that contains exactly the seals ever stored for the pair. */
  lemma PairComplete(b: Book, c: string, h: string, e: Envelope)
    requires Stored(b)
    ensures e in PairSeals(b, c, h) <==> e.Id() in b.seals && b.seals[e.Id()] == e && e.Of(c, h)
  {
    var ids, seals := PairIds(b, c, h), PairSeals(b, c, h);
    if e in seals {
      var i :| 0 <= i < |ids| && seals[i] == e;
      assert ids[i] in ids && SealStored(b, ids[i]);
    }
    if e.Id() in b.seals && b.seals[e.Id()] == e && e.Of(c, h) {
      assert e.Id() in ids;
      var i :| 0 <= i < |ids| && ids[i] == e.Id();
      assert seals[i] == e;
    }
  }

  lemma ChainHead(seals: seq<Envelope>)
    requires IsChain(seals) && seals != []
    ensures FindHistoryHead(seals) == Some(seals[|seals| - 1])
  {
    var n := |seals|;
    var referenced := Referenced(seals);
    forall i | 0 <= i < n - 1
      ensures seals[i].Id() in referenced
    {
      assert seals[i + 1].chain.previous == PayloadBefore(seals, i + 1);
      assert seals[i + 1] in seals;
    }
    forall e | e in seals && e.chain.previous.Some?
      ensures e.chain.previous.value.sealId != seals[n - 1].Id()
    {
      var i :| 0 <= i < n && seals[i] == e;
      assert seals[i].chain.previous == PayloadBefore(seals, i);
      assert seals[i - 1].Id() != seals[n - 1].Id();
    }
    FirstUnreferencedIsLast(seals, referenced);
  }

  /** With or without a live head, the walk starts at the newest seal. */
  lemma HistoryHeadIsNewest(b: Book, c: string, h: string)
    requires Inv(b) && PairIds(b, c, h) != []
    ensures var seals := PairSeals(b, c, h);
      && FindHistoryHead(seals) == Some(seals[|seals| - 1])
      && (ChainKey(c, h) in b.current ==> b.current[ChainKey(c, h)] == seals[|seals| - 1])
  {
    PairChain(b, c, h);
    ChainHead(PairSeals(b, c, h));
    if ChainKey(c, h) in b.current {
      HeadPair(b, c, h);
      assert HeadLast(b, ChainKey(c, h));
    }
  }

  /** Nothing ever leaves a chain: later states only append to it. */
  lemma {:induction false} ChainsOnlyGrow(b: Book, ops: seq<Op>, schema: Schema, c: string, h: string)
    requires Inv(b) && SaneRun(b, ops, schema)
    ensures var after := Run(b, ops, schema);
      && PairIds(b, c, h) <= PairIds(after, c, h)
      && forall id :: id in b.seals ==> id in after.seals && after.seals[id] == b.seals[id]
    decreases |ops|
  {
    if ops != [] {
      StepKeepsInv(b, ops[0], schema);
      StepGrows(b, ops[0], schema, c, h);
      ChainsOnlyGrow(Step(b, ops[0], schema).0, ops[1..], schema, c, h);
    }
  }

  /** Storing a seal of an unrevoked pair extends that pair's chain only. */
  ghost predicate Extends(b: Book, after: Book, reply: Reply, c: string, h: string) {
    && (forall id :: id in b.seals ==> id in after.seals && after.seals[id] == b.seals[id])
    && (PairIds(after, c, h) == PairIds(b, c, h)
        || (reply.Ok? && reply.value.Of(c, h) && ChainKey(c, h) !in b.revoked
            && PairIds(after, c, h) == PairIds(b, c, h) + [reply.value.Id()]))
  }

  lemma EmitExtends(b: Book, key: string, input: Input, previous: Option<Payload>, o: Outside, schema: Schema, c: string, h: string)
    requires Stored(b) && o.freshId !in b.seals
    requires key == ChainKey(input.credentialId, input.chatId) && key !in b.revoked
    ensures var (after, reply) := Emit(b, key, input, previous, o, schema);
      Extends(b, after, reply, c, h)
  {
    if Emit(b, key, input, previous, o, schema).1.Ok? {
      EmitFacts(b, key, input, previous, o, schema);
      TrackPairIds(b, key, Emit(b, key, input, previous, o, schema).1.value, input, c, h);
    }
  }

  lemma StepGrows(b: Book, op: Op, schema: Schema, c: string, h: string)
    requires Stored(b) && Sane(b, op)
    ensures var (after, reply) := Step(b, op, schema);
      Extends(b, after, reply, c, h)
  {
    var after := Step(b, op, schema).0;
    if after != b {
      match op
      case Issue(_, chatId, resolved, o) =>
        var key := ChainKey(resolved.value.credentialId, chatId);
        EmitExtends(b, key, resolved.value, PreviousFor(b, key), o, schema, c, h);
      case Refresh(sealId, o) =>
        assert SealStored(b, sealId);
        EmitExtends(b, b.seals[sealId].Key(), b.inputs[sealId], Some(b.seals[sealId].chain.current), o, schema, c, h);
      case Revoke(_, _, _) =>
        SamePairIds(b, after, c, h);
    }
  }

  // ---- Revocation is final -----------------------------------------------

  /** Does this call ask for something to happen to the pair? */
  predicate Targets(b: Book, op: Op, key: string) {
    match op
    case Issue(credentialId, chatId, _, _) => ChainKey(credentialId, chatId) == key
    case Refresh(sealId, _) => sealId in b.seals && b.seals[sealId].Key() == key
    case Revoke(sealId, _, _) => sealId in b.seals && b.seals[sealId].Key() == key
  }

  /** Once a pair is revoked, every call about it fails and changes nothing. */
  lemma RevokedPairRejects(b: Book, op: Op, schema: Schema, key: string)
    requires Sane(b, op) && key in b.revoked && key !in b.current
    ensures Targets(b, op, key) ==> Step(b, op, schema).1.Err? && Step(b, op, schema).0 == b
    ensures key in Step(b, op, schema).0.revoked
  {
    match op
    case Issue(_, _, _, _) =>
    case Refresh(sealId, _) =>
    case Revoke(sealId, _, _) =>
  }

  lemma HeadNotRevoked(b: Book, key: string)
    requires HeadsStored(b)
    ensures !(key in b.current && key in b.revoked)
  {
    assert key in b.current ==> HeadStored(b, key);
  }

  /** Over any later run the revoked pair's chain stays as it was. */
  lemma {:induction false} RevocationIsFinal(b: Book, ops: seq<Op>, schema: Schema, c: string, h: string)
    requires Inv(b) && SaneRun(b, ops, schema) && ChainKey(c, h) in b.revoked
    ensures var after := Run(b, ops, schema);
      && ChainKey(c, h) in after.revoked
      && ChainKey(c, h) !in after.current
      && PairIds(after, c, h) == PairIds(b, c, h)
    decreases |ops|
  {
    HeadNotRevoked(b, ChainKey(c, h));
    if ops != [] {
      StepKeepsInv(b, ops[0], schema);
      StepGrows(b, ops[0], schema, c, h);
      RevokedPairRejects(b, ops[0], schema, ChainKey(c, h));
      RevocationIsFinal(Step(b, ops[0], schema).0, ops[1..], schema, c, h);
    }
  }

  // ---- What a successful issue publishes ---------------------------------

  /** Equality of everything `issue` compares besides the permission lists. */
  ghost predicate SameDisclosures(a: Input, b: Input) {
    && a.credentialId == b.credentialId && a.operatorId == b.operatorId && a.chatId == b.chatId
    && a.scopeMode == b.scopeMode && a.trustTier == b.trustTier
    && MeaningOf(a.adminAccess) == MeaningOf(b.adminAccess)
    && MeaningOf(a.operatorDisclosures) == MeaningOf(b.operatorDisclosures)
    && MeaningOf(a.provenanceMap) == MeaningOf(b.provenanceMap)
  }

  lemma HasInputChangesIff(a: Input, b: Input)
    requires WellFormedInput(a) && WellFormedInput(b)
    ensures HasInputChanges(a, b) <==> !SameDisclosures(a, b)
  {
    CanonicalIffMeaning(a.adminAccess, b.adminAccess);
    CanonicalIffMeaning(a.operatorDisclosures, b.operatorDisclosures);
    CanonicalIffMeaning(a.provenanceMap, b.provenanceMap);
  }

  lemma IsMaterialIff(prev: ScopeSet, next: ScopeSet)
    ensures IsMaterialChange(PayloadDelta(prev, next)) <==> !SameLists(prev, next)
  {
    DeltaEmptyIff(prev, next);
  }

  lemma IsQuietIff(b: Book, key: string, input: Input)
    requires Stored(b) && HeadsStored(b) && WellFormedInput(input)
    ensures IsQuiet(b, key, input) <==>
      && key in b.current
      && SameLists(b.current[key].chain.current.permissions, input.permissions)
      && SameDisclosures(b.inputs[b.current[key].Id()], input)
  {
    if key in b.current {
      var id := b.current[key].Id();
      assert HeadStored(b, key) && SealStored(b, id);
      IsMaterialIff(b.current[key].chain.current.permissions, input.permissions);
      HasInputChangesIff(b.inputs[id], input);
    }
  }

  /** A successful issue stores nothing exactly when the head already carries
      the resolved lists and disclosures; either way the head then carries the
      resolver's latest permission lists. */
  lemma IssueQuietIff(b: Book, op: Op, schema: Schema)
    requires Stored(b) && HeadsStored(b) && Sane(b, op) && op.Issue? && Step(b, op, schema).1.Ok?
    ensures var (after, reply) := Step(b, op, schema);
      var key, input := ChainKey(op.credentialId, op.chatId), op.resolved.value;
      && (after == b <==>
            && key in b.current
            && SameLists(b.current[key].chain.current.permissions, input.permissions)
            && SameDisclosures(b.inputs[b.current[key].Id()], input))
      && key in after.current && after.current[key] == reply.value
      && SameLists(reply.value.chain.current.permissions, input.permissions)
  {
    var (after, reply) := Step(b, op, schema);
    var key, input := ChainKey(op.credentialId, op.chatId), op.resolved.value;
    IsQuietIff(b, key, input);
    IssueOutcome(b, op, schema);
  }

  /** A successful issue answers with the head, or stores a new one. */
  lemma IssueOutcome(b: Book, op: Op, schema: Schema)
    requires Sane(b, op) && op.Issue? && Step(b, op, schema).1.Ok?
    ensures var (after, reply) := Step(b, op, schema);
      var key, input := ChainKey(op.credentialId, op.chatId), op.resolved.value;
      if IsQuiet(b, key, input) then after == b && reply.value == b.current[key]
      else
        && after != b && key in after.current && after.current[key] == reply.value
        && reply.value.chain.current.permissions == input.permissions
  {
    var (after, reply) := Step(b, op, schema);
    var key, input := ChainKey(op.credentialId, op.chatId), op.resolved.value;
    if !IsQuiet(b, key, input) {
      assert after == Track(b, key, reply.value, input);
      assert op.outside.freshId in after.seals;
    }
  }

  // ---- Published chains verify -------------------------------------------

  /** Each credential keeps its operator, and no seal is from the future. */
  ghost predicate Orderly(b: Book, operatorOf: string -> string, clock: int) {
    && (forall id :: id in b.seals ==> SealOrderly(b.seals[id], operatorOf, clock))
    && (forall key :: key in b.current ==> SealOrderly(b.current[key], operatorOf, clock))
    && (forall id :: id in b.inputs ==> b.inputs[id].operatorId == operatorOf(b.inputs[id].credentialId))
  }

  ghost predicate SealOrderly(e: Envelope, operatorOf: string -> string, clock: int) {
    && e.chain.current.operatorId == operatorOf(e.chain.current.credentialId)
    && e.chain.current.issuedAt <= clock
    && ValidateSealChain(e.chain) == None
  }

  predicate Timely(op: Op, operatorOf: string -> string, clock: int) {
    && clock <= op.outside.now
    && (op.Issue? && op.resolved.Some? ==> op.resolved.value.operatorId == operatorOf(op.resolved.value.credentialId))
  }

  predicate TimelyRun(ops: seq<Op>, operatorOf: string -> string, clock: int) {
    ops == [] || (Timely(ops[0], operatorOf, clock) && TimelyRun(ops[1..], operatorOf, ops[0].outside.now))
  }

  function Clock(ops: seq<Op>, clock: int): int {
    if ops == [] then clock else ops[|ops| - 1].outside.now
  }

  lemma EmitOrderly(b: Book, key: string, input: Input, previous: Option<Payload>, o: Outside, schema: Schema,
                    operatorOf: string -> string, clock: int)
    requires Orderly(b, operatorOf, clock) && clock <= o.now
    requires input.operatorId == operatorOf(input.credentialId)
    requires previous.Some? ==>
      && previous.value.credentialId == input.credentialId && previous.value.chatId == input.chatId
      && previous.value.operatorId == input.operatorId && previous.value.issuedAt <= clock
    ensures Orderly(Emit(b, key, input, previous, o, schema).0, operatorOf, o.now)
  {
    var (after, reply) := Emit(b, key, input, previous, o, schema);
    if reply.Ok? {
      assert SealOrderly(reply.value, operatorOf, o.now);
      assert after == Track(b, key, reply.value, input);
    } else {
      assert after == b;
    }
  }

  lemma IssueOrderly(b: Book, op: Op, schema: Schema, operatorOf: string -> string, clock: int)
    requires Stored(b) && HeadsStored(b) && Sane(b, op) && Orderly(b, operatorOf, clock) && Timely(op, operatorOf, clock)
    requires op.Issue? && op.resolved.Some?
    ensures Orderly(Emit(b, ChainKey(op.credentialId, op.chatId), op.resolved.value,
                         PreviousFor(b, ChainKey(op.credentialId, op.chatId)), op.outside, schema).0, operatorOf, op.outside.now)
  {
    var key := ChainKey(op.credentialId, op.chatId);
    if key in b.current {
      HeadPair(b, op.credentialId, op.chatId);
      assert SealOrderly(b.current[key], operatorOf, clock);
    }
    EmitOrderly(b, key, op.resolved.value, PreviousFor(b, key), op.outside, schema, operatorOf, clock);
  }

  lemma StepOrderly(b: Book, op: Op, schema: Schema, operatorOf: string -> string, clock: int)
    requires Stored(b) && HeadsStored(b) && Sane(b, op) && Orderly(b, operatorOf, clock) && Timely(op, operatorOf, clock)
    ensures Orderly(Step(b, op, schema).0, operatorOf, op.outside.now)
  {
    var after := Step(b, op, schema).0;
    OrderlyLater(b, operatorOf, clock, op.outside.now);
    if after != b {
      match op
      case Issue(_, _, _, _) => IssueOrderly(b, op, schema, operatorOf, clock);
      case Refresh(_, _) => RefreshOrderly(b, op, schema, operatorOf, clock);
      case Revoke(sealId, _, _) =>
        RetireOrderly(b, b.seals[sealId].Key(), operatorOf, op.outside.now);
    }
  }

  lemma RetireOrderly(b: Book, key: string, operatorOf: string -> string, now: int)
    requires Orderly(b, operatorOf, now)
    ensures Orderly(Retire(b, key), operatorOf, now)
  {
  }

  lemma OrderlyLater(b: Book, operatorOf: string -> string, clock: int, now: int)
    requires Orderly(b, operatorOf, clock) && clock <= now
    ensures Orderly(b, operatorOf, now)
  {
  }

  lemma RefreshOrderly(b: Book, op: Op, schema: Schema, operatorOf: string -> string, clock: int)
    requires Stored(b) && Sane(b, op) && Orderly(b, operatorOf, clock) && Timely(op, operatorOf, clock)
    requires op.Refresh? && Step(b, op, schema).0 != b
    ensures Orderly(Step(b, op, schema).0, operatorOf, op.outside.now)
  {
    var e := b.seals[op.sealId];
    assert SealStored(b, op.sealId) && SealOrderly(e, operatorOf, clock);
    EmitOrderly(b, e.Key(), b.inputs[op.sealId], Some(e.chain.current), op.outside, schema, operatorOf, clock);
  }

  lemma {:induction false} RunOrderly(b: Book, ops: seq<Op>, schema: Schema, operatorOf: string -> string, clock: int)
    requires Inv(b) && SaneRun(b, ops, schema) && Orderly(b, operatorOf, clock) && TimelyRun(ops, operatorOf, clock)
    ensures Orderly(Run(b, ops, schema), operatorOf, Clock(ops, clock))
    decreases |ops|
  {
    if ops != [] {
      StepKeepsInv(b, ops[0], schema);
      StepOrderly(b, ops[0], schema, operatorOf, clock);
      RunOrderly(Step(b, ops[0], schema).0, ops[1..], schema, operatorOf, ops[0].outside.now);
    }
  }

  /** With a clock that does not run backwards and one operator per credential,
      every seal ever stored by a manager passes both chain checks. */
  lemma PublishedChainsVerify(ops: seq<Op>, schema: Schema, operatorOf: string -> string, clock: int, id: string)
    requires SaneRun(EMPTY, ops, schema) && TimelyRun(ops, operatorOf, clock)
    requires id in Run(EMPTY, ops, schema).seals
    ensures var chain := Run(EMPTY, ops, schema).seals[id].chain;
      ValidateSealChain(chain) == None && VerifyChainDelta(chain)
  {
    EmptyInv();
    RunKeepsInv(EMPTY, ops, schema);
    RunOrderly(EMPTY, ops, schema, operatorOf, clock);
    var b := Run(EMPTY, ops, schema);
    assert SealOrderly(b.seals[id], operatorOf, Clock(ops, clock));
    assert SealStored(b, id);
  }

  /** A chain whose links all pass the structural check belongs to one
      operator, credential and chat, and never goes back in time. */
  lemma {:induction false} ValidChainUniform(seals: seq<Envelope>, i: nat, j: nat)
    requires IsChain(seals) && i <= j < |seals|
    requires forall k :: 0 <= k < |seals| ==> ValidateSealChain(seals[k].chain) == None
    ensures var p, q := seals[i].chain.current, seals[j].chain.current;
      p.operatorId == q.operatorId && p.credentialId == q.credentialId && p.chatId == q.chatId && p.issuedAt <= q.issuedAt
  {
    if i < j {
      ValidChainUniform(seals, i, j - 1);
      assert seals[j].chain.previous == PayloadBefore(seals, j);
      assert ValidateSealChain(seals[j].chain) == None;
    }
  }

  // ---- Deltas along a chain ----------------------------------------------

  /** Permissions rebuilt from the first seal and the deltas after it. */
  ghost function Rebuilt(seals: seq<Envelope>): Grants
    requires seals != []
  {
    var n := |seals| - 1;
    if n == 0 then GrantsOf(seals[0].chain.current.permissions)
    else Replay(Rebuilt(seals[..n]), seals[n].chain.delta)
  }

  ghost predicate RebuildsAt(seals: seq<Envelope>, n: nat)
    requires n < |seals|
  {
    Rebuilt(seals[..n + 1]) == GrantsOf(seals[n].chain.current.permissions)
  }

  /** The link does not take a scope from exactly one of the two lists to both. */
  predicate LinkReplayable(e: Envelope) {
    e.chain.previous.Some? ==> Replayable(e.chain.previous.value.permissions, e.chain.current.permissions)
  }

  predicate LinksReplayable(seals: seq<Envelope>) {
    forall i :: 0 <= i < |seals| ==> LinkReplayable(seals[i])
  }

  lemma RebuiltSnoc(seals: seq<Envelope>, n: nat)
    requires n + 1 < |seals|
    ensures Rebuilt(seals[..n + 2]) == Replay(Rebuilt(seals[..n + 1]), seals[n + 1].chain.delta)
  {
    assert seals[..n + 2][..n + 1] == seals[..n + 1];
  }

  lemma LinkFact(seals: seq<Envelope>, n: nat)
    requires IsChain(seals) && DeltasStored(seals) && n + 1 < |seals|
    ensures seals[n + 1].chain.previous == Some(seals[n].chain.current)
    ensures seals[n + 1].chain.delta == PayloadDelta(seals[n].chain.current.permissions, seals[n + 1].chain.current.permissions)
  {
    assert seals[n + 1].chain.previous == PayloadBefore(seals, n + 1);
  }

  /** One more link is rebuilt exactly when it is replayable. */
  lemma RebuildsNext(seals: seq<Envelope>, n: nat)
    requires IsChain(seals) && DeltasStored(seals) && n + 1 < |seals| && RebuildsAt(seals, n)
    ensures RebuildsAt(seals, n + 1) <==> LinkReplayable(seals[n + 1])
  {
    RebuiltSnoc(seals, n);
    LinkFact(seals, n);
    ReplayDetermines(seals[n].chain.current.permissions, seals[n + 1].chain.current.permissions);
  }

  lemma RebuildsFirst(seals: seq<Envelope>)
    requires IsChain(seals) && seals != []
    ensures RebuildsAt(seals, 0) && LinkReplayable(seals[0])
  {
    assert seals[0].chain.previous == PayloadBefore(seals, 0);
  }

  lemma {:induction false} RebuildsUpTo(seals: seq<Envelope>, n: nat)
    requires IsChain(seals) && DeltasStored(seals) && n < |seals| && LinksReplayable(seals)
    ensures RebuildsAt(seals, n)
  {
    if n > 0 {
      RebuildsUpTo(seals, n - 1);
      RebuildsNext(seals, n - 1);
    } else {
      RebuildsFirst(seals);
    }
  }

  /** Replaying the deltas gives the permissions of the last seal of a chain if
      every link is replayable. */
  lemma RebuiltIsLast(seals: seq<Envelope>)
    requires IsChain(seals) && seals != [] && DeltasStored(seals) && LinksReplayable(seals)
    ensures Rebuilt(seals) == GrantsOf(seals[|seals| - 1].chain.current.permissions)
  {
    RebuildsUpTo(seals, |seals| - 1);
    assert seals[..|seals|] == seals;
  }

  ghost predicate RebuildsAll(seals: seq<Envelope>) {
    forall n :: 0 <= n < |seals| ==> RebuildsAt(seals, n)
  }

  lemma RebuiltLinks(seals: seq<Envelope>, i: nat)
    requires IsChain(seals) && DeltasStored(seals) && i < |seals| && RebuildsAt(seals, i)
    requires i > 0 ==> RebuildsAt(seals, i - 1)
    ensures LinkReplayable(seals[i])
  {
    if i > 0 {
      var n := i - 1;
      RebuildsNext(seals, n);
      assert i == n + 1;
    } else {
      RebuildsFirst(seals);
    }
  }

  /** It gives the permissions of every seal on the way exactly then. */
  lemma RebuiltIff(seals: seq<Envelope>)
    requires IsChain(seals) && DeltasStored(seals)
    ensures RebuildsAll(seals) <==> LinksReplayable(seals)
  {
    if LinksReplayable(seals) {
      forall n | 0 <= n < |seals|
        ensures RebuildsAt(seals, n)
      {
        RebuildsUpTo(seals, n);
      }
    }
    if RebuildsAll(seals) {
      forall i | 0 <= i < |seals|
        ensures LinkReplayable(seals[i])
      {
        RebuiltLinks(seals, i);
      }
    }
  }

  ghost predicate DeltasStored(seals: seq<Envelope>) {
    forall i :: 0 <= i < |seals| ==> seals[i].chain.delta == LinkDelta(seals[i].chain.previous, seals[i].chain.current)
  }

  lemma PairDeltasStored(b: Book, c: string, h: string)
    requires Stored(b)
    ensures DeltasStored(PairSeals(b, c, h))
  {
    var ids := PairIds(b, c, h);
    forall i | 0 <= i < |ids|
      ensures b.seals[ids[i]].chain.delta == LinkDelta(b.seals[ids[i]].chain.previous, b.seals[ids[i]].chain.current)
    {
      assert ids[i] in ids && SealStored(b, ids[i]);
    }
  }

  /** In any reachable state, replaying a pair's deltas from its first seal
      gives the permissions of each of its seals, the newest included, exactly
      when no link takes a scope from one of the two lists to both. */
  lemma DeltasRebuildHead(b: Book, c: string, h: string, seals: seq<Envelope>)
    requires Inv(b) && seals == PairSeals(b, c, h) && seals != []
    ensures RebuildsAll(seals) <==> LinksReplayable(seals)
    ensures LinksReplayable(seals) ==> Rebuilt(seals) == GrantsOf(seals[|seals| - 1].chain.current.permissions)
  {
    assert IsChain(seals) by {
      PairChain(b, c, h);
    }
    assert DeltasStored(seals) by {
      PairDeltasStored(b, c, h);
    }
    RebuiltIff(seals);
    if LinksReplayable(seals) {
      RebuiltIsLast(seals);
    }
  }
}
