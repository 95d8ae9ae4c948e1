/** What holds in every reachable state of the seal manager. */
module SealRuns {
  import opened Prelude
  import opened SealChain
  import opened SealBook

  // ---- Keys --------------------------------------------------------------

  predicate NoColon(s: string) { forall i :: 0 <= i < |s| ==> s[i] != ':' }

  lemma ValidIdNoColon(id: string, prefix: string)
    requires ValidId(id, prefix) && NoColon(prefix)
    ensures NoColon(id)
  {
    forall i | 0 <= i < |id|
      ensures id[i] != ':'
    {
      if i < |prefix| {
        assert id[i] == prefix[i];
      }
    }
  }

  /** A key made of identifiers without colons belongs to one pair only. */
  lemma ChainKeyInjective(c: string, h: string, c': string, h': string)
    requires NoColon(c) && NoColon(h) && ChainKey(c, h) == ChainKey(c', h')
    ensures c == c' && h == h'
  {
    var key := ChainKey(c, h);
    assert key[|c'|] == ':';
    assert key[|c|] == ':';
    assert forall i :: 0 <= i < |key| && i != |c| ==> key[i] != ':' by {
      forall i | 0 <= i < |key| && i != |c|
        ensures key[i] != ':'
      {
        if i > |c| {
          assert key[i] == h[i - |c| - 1];
        }
      }
    }
    assert key[..|c|] == c && key[..|c'|] == c';
    assert key[|c| + 1..] == h && key[|c'| + 1..] == h';
  }

  lemma SealKeyPair(b: Book, id: string, c: string, h: string)
    requires Stored(b) && id in b.seals && b.seals[id].Key() == ChainKey(c, h)
    ensures b.seals[id].Of(c, h)
  {
    assert SealStored(b, id);
    var p := b.seals[id].chain.current;
    ValidIdNoColon(p.credentialId, "cred_");
    ValidIdNoColon(p.chatId, "conv_");
    ChainKeyInjective(p.credentialId, p.chatId, c, h);
  }

  // ---- Storing one more seal ---------------------------------------------

  lemma TrackPairIds(b: Book, key: string, e: Envelope, input: Input, c: string, h: string)
    requires Stored(b) && e.Id() !in b.seals
    ensures PairIds(Track(b, key, e, input), c, h) == PairIds(b, c, h) + if e.Of(c, h) then [e.Id()] else []
  {
    var after := Track(b, key, e, input);
    FilterSnoc(b.order, e.Id(), InPair(after.seals, c, h));
    FilterCongruent(b.order, InPair(after.seals, c, h), InPair(b.seals, c, h));
  }

  lemma TrackStored(b: Book, key: string, e: Envelope, input: Input)
    requires Stored(b) && e.Id() !in b.seals
    requires ValidIds(e.chain.current) && e.chain.current == PayloadOf(input, e.Id(), e.chain.current.issuedAt)
    requires WellFormedInput(input) && e.chain.delta == LinkDelta(e.chain.previous, e.chain.current)
    ensures Stored(Track(b, key, e, input))
  {
    var after := Track(b, key, e, input);
    forall id | id in after.seals
      ensures SealStored(after, id)
    {
      if id != e.Id() {
        assert SealStored(b, id);
      }
    }
  }

  /** The newest payload of a pair. */
  ghost function LastOf(b: Book, c: string, h: string): Option<Payload>
    requires Stored(b)
  {
    var ids := PairIds(b, c, h);
    if ids == [] then None else Some(b.seals[ids[|ids| - 1]].chain.current)
  }

  lemma LinkedSame(seals: map<string, Envelope>, ids: seq<string>, e: Envelope)
    requires Linked(seals, ids) && e.Id() !in seals
    ensures Linked(seals[e.Id() := e], ids)
  {
    var after := seals[e.Id() := e];
    forall i {:trigger Predecessor(after, ids, i)} | 0 <= i < |ids|
      ensures after[ids[i]].chain.previous == Predecessor(after, ids, i)
    {
      assert seals[ids[i]].chain.previous == Predecessor(seals, ids, i);
      assert ids[i] in ids && (i > 0 ==> ids[i - 1] in ids);
    }
  }

  lemma LinkedSnoc(seals: map<string, Envelope>, ids: seq<string>, e: Envelope)
    requires Linked(seals, ids) && e.Id() in seals && seals[e.Id()] == e
    requires e.chain.previous == if ids == [] then None else Some(seals[ids[|ids| - 1]].chain.current)
    ensures Linked(seals, ids + [e.Id()])
  {
    var ids' := ids + [e.Id()];
    forall i {:trigger Predecessor(seals, ids', i)} | 0 <= i < |ids'|
      ensures seals[ids'[i]].chain.previous == Predecessor(seals, ids', i)
    {
      if i < |ids| {
        assert seals[ids[i]].chain.previous == Predecessor(seals, ids, i);
      }
    }
  }

  lemma TrackLinked(b: Book, key: string, e: Envelope, input: Input, c: string, h: string)
    requires Stored(b) && e.Id() !in b.seals && Linked(b.seals, PairIds(b, c, h))
    requires e.Of(c, h) ==> e.chain.previous == LastOf(b, c, h)
    ensures var after := Track(b, key, e, input);
      Linked(after.seals, PairIds(after, c, h))
  {
    TrackPairIds(b, key, e, input, c, h);
    var ids := PairIds(b, c, h);
    LinkedSame(b.seals, ids, e);
    if e.Of(c, h) {
      assert ids != [] ==> ids[|ids| - 1] in ids;
      LinkedSnoc(b.seals[e.Id() := e], ids, e);
    } else {
      assert ids + [] == ids;
    }
  }

  lemma HeadPair(b: Book, c: string, h: string)
    requires Stored(b) && HeadsStored(b) && ChainKey(c, h) in b.current
    ensures b.current[ChainKey(c, h)].Of(c, h)
    ensures b.current[ChainKey(c, h)].Id() in b.seals && b.seals[b.current[ChainKey(c, h)].Id()] == b.current[ChainKey(c, h)]
  {
    var key := ChainKey(c, h);
    assert HeadStored(b, key);
    SealKeyPair(b, b.current[key].Id(), c, h);
  }

  /** An unrevoked pair without a head has no seals. */
  lemma NoHeadNoSeals(b: Book, c: string, h: string)
    requires Stored(b) && PairsSettled(b)
    requires ChainKey(c, h) !in b.revoked && ChainKey(c, h) !in b.current
    ensures PairIds(b, c, h) == []
  {
    forall id | id in b.order
      ensures !InPair(b.seals, c, h)(id)
    {
      assert b.seals[id].Key() in b.current || b.seals[id].Key() in b.revoked;
    }
    FilterNone(b.order, InPair(b.seals, c, h));
  }

  /** The manager's idea of the predecessor is the newest seal of the pair. */
  lemma PreviousIsLast(b: Book, c: string, h: string)
    requires Inv(b) && ChainKey(c, h) !in b.revoked
    ensures LastOf(b, c, h) == PreviousFor(b, ChainKey(c, h))
  {
    var key := ChainKey(c, h);
    if key in b.current {
      HeadPair(b, c, h);
      assert HeadLast(b, key);
      assert LastId(PairIds(b, c, h)) == Some(b.current[key].Id());
    } else {
      NoHeadNoSeals(b, c, h);
    }
  }

  lemma TrackHeads(b: Book, e: Envelope, input: Input, k: string)
    requires Stored(b) && HeadsStored(b) && HeadsLast(b)
    requires e.Id() !in b.seals && e.Key() !in b.revoked
    requires k in Track(b, e.Key(), e, input).current
    ensures HeadStored(Track(b, e.Key(), e, input), k)
    ensures HeadLast(Track(b, e.Key(), e, input), k)
  {
    var after := Track(b, e.Key(), e, input);
    var p := after.current[k].chain.current;
    TrackPairIds(b, e.Key(), e, input, p.credentialId, p.chatId);
    assert k != e.Key() ==> HeadStored(b, k) && HeadLast(b, k);
  }

  lemma TrackKeepsLinks(b: Book, e: Envelope, input: Input)
    requires Stored(b) && AllLinked(b) && e.Id() !in b.seals
    requires e.chain.previous == LastOf(b, e.chain.current.credentialId, e.chain.current.chatId)
    ensures AllLinked(Track(b, e.Key(), e, input))
  {
    var after := Track(b, e.Key(), e, input);
    forall c, h
      ensures Linked(after.seals, PairIds(after, c, h))
    {
      assert Linked(b.seals, PairIds(b, c, h));
      TrackLinked(b, e.Key(), e, input, c, h);
    }
  }

  lemma TrackKeepsSettled(b: Book, e: Envelope, input: Input)
    requires PairsSettled(b)
    ensures PairsSettled(Track(b, e.Key(), e, input))
  {
  }

  lemma TrackKeepsHeads(b: Book, e: Envelope, input: Input)
    requires Stored(b) && HeadsStored(b) && HeadsLast(b)
    requires e.Id() !in b.seals && e.Key() !in b.revoked
    ensures HeadsStored(Track(b, e.Key(), e, input)) && HeadsLast(Track(b, e.Key(), e, input))
  {
    forall k | k in Track(b, e.Key(), e, input).current
      ensures HeadStored(Track(b, e.Key(), e, input), k) && HeadLast(Track(b, e.Key(), e, input), k)
    {
      TrackHeads(b, e, input, k);
    }
  }

  lemma EmitKeepsInv(b: Book, key: string, input: Input, previous: Option<Payload>, o: Outside, schema: Schema)
    requires Inv(b) && o.freshId !in b.seals && WellFormedInput(input)
    requires key == ChainKey(input.credentialId, input.chatId) && key !in b.revoked
    requires previous == PreviousFor(b, key)
    ensures Inv(Emit(b, key, input, previous, o, schema).0)
  {
    var after := Emit(b, key, input, previous, o, schema).0;
    if Emit(b, key, input, previous, o, schema).1.Ok? {
      var e := Emitted(b, key, input, previous, o, schema);
      SameBook(Track(b, e.Key(), e, input), after);
    } else {
      EmitFails(b, key, input, previous, o, schema);
      SameBook(b, after);
    }
  }

  lemma EmitFails(b: Book, key: string, input: Input, previous: Option<Payload>, o: Outside, schema: Schema)
    requires Emit(b, key, input, previous, o, schema).1.Err?
    ensures Emit(b, key, input, previous, o, schema).0 == b
  {
  }

  lemma Emitted(b: Book, key: string, input: Input, previous: Option<Payload>, o: Outside, schema: Schema) returns (e: Envelope)
    requires Inv(b) && o.freshId !in b.seals && WellFormedInput(input)
    requires key == ChainKey(input.credentialId, input.chatId) && key !in b.revoked
    requires previous == PreviousFor(b, key)
    requires Emit(b, key, input, previous, o, schema).1.Ok?
    ensures Inv(Track(b, e.Key(), e, input))
    ensures Emit(b, key, input, previous, o, schema).0 == Track(b, e.Key(), e, input)
  {
    e := Emit(b, key, input, previous, o, schema).1.value;
    EmitFacts(b, key, input, previous, o, schema);
    PreviousIsLast(b, input.credentialId, input.chatId);
    StoreKeepsInv(b, e, input);
  }

  lemma SameBook(b: Book, after: Book)
    requires Inv(b) && after == b
    ensures Inv(after)
  {
  }

  lemma StoreKeepsInv(b: Book, e: Envelope, input: Input)
    requires Inv(b) && e.Id() !in b.seals && e.Key() !in b.revoked && WellFormedInput(input)
    requires ValidIds(e.chain.current) && e.chain.current == PayloadOf(input, e.Id(), e.chain.current.issuedAt)
    requires e.chain.previous == LastOf(b, e.chain.current.credentialId, e.chain.current.chatId)
    requires e.chain.delta == LinkDelta(e.chain.previous, e.chain.current)
    ensures Inv(Track(b, e.Key(), e, input))
  {
    TrackStored(b, e.Key(), e, input);
    TrackKeepsLinks(b, e, input);
    TrackKeepsHeads(b, e, input);
    TrackKeepsSettled(b, e, input);
  }

  /** What is known of a seal that made it into the book. */
  lemma EmitFacts(b: Book, key: string, input: Input, previous: Option<Payload>, o: Outside, schema: Schema)
    requires key == ChainKey(input.credentialId, input.chatId)
    requires Emit(b, key, input, previous, o, schema).1.Ok?
    ensures var (after, reply) := Emit(b, key, input, previous, o, schema);
      var e := reply.value;
      && e.Id() == o.freshId && e.Key() == key && e.chain.previous == previous
      && e.chain.current == PayloadOf(input, o.freshId, o.now) && ValidIds(e.chain.current)
      && e.chain.delta == LinkDelta(previous, e.chain.current)
      && after == Track(b, key, e, input)
  {
  }

  lemma SamePairIds(b: Book, after: Book, c: string, h: string)
    requires after.seals == b.seals && after.order == b.order
    ensures PairIds(after, c, h) == PairIds(b, c, h)
  {
  }

  lemma RetireKeepsStored(b: Book, key: string)
    requires Stored(b)
    ensures Stored(Retire(b, key))
  {
    forall id | id in b.seals
      ensures SealStored(Retire(b, key), id)
    {
      assert SealStored(b, id);
    }
  }

  lemma RetireKeepsLinks(b: Book, key: string)
    requires AllLinked(b)
    ensures AllLinked(Retire(b, key))
  {
    forall c, h
      ensures Linked(b.seals, PairIds(Retire(b, key), c, h))
    {
      SamePairIds(b, Retire(b, key), c, h);
    }
  }

  lemma RetireKeepsHeads(b: Book, key: string)
    requires HeadsStored(b) && HeadsLast(b)
    ensures HeadsStored(Retire(b, key)) && HeadsLast(Retire(b, key))
  {
    var after := Retire(b, key);
    forall k | k in after.current
      ensures HeadStored(after, k) && HeadLast(after, k)
    {
      assert HeadStored(b, k) && HeadLast(b, k);
      var p := b.current[k].chain.current;
      SamePairIds(b, after, p.credentialId, p.chatId);
    }
  }

  lemma RevokeKeepsInv(b: Book, sealId: string, accepted: bool, o: Outside)
    requires Inv(b)
    ensures Inv(RevokeSeal(b, sealId, accepted, o).0)
  {
    if RevokeSeal(b, sealId, accepted, o).1.Ok? {
      var key := b.seals[sealId].Key();
      assert RevokeSeal(b, sealId, accepted, o).0 == Retire(b, key);
      RetireKeepsStored(b, key);
      RetireKeepsLinks(b, key);
      RetireKeepsHeads(b, key);
      assert PairsSettled(Retire(b, key));
    } else {
      assert RevokeSeal(b, sealId, accepted, o).0 == b;
    }
  }

  /** The predecessor the manager passes to the builder when it issues. */
  function PreviousFor(b: Book, key: string): Option<Payload> {
    if key in b.current then Some(b.current[key].chain.current) else None
  }

  lemma IssueKeepsInv(b: Book, chatId: string, resolved: Option<Input>, o: Outside, schema: Schema)
    requires Inv(b) && o.freshId !in b.seals
    requires resolved.Some? ==> resolved.value.chatId == chatId && WellFormedInput(resolved.value)
    ensures Inv(IssueSeal(b, chatId, resolved, o, schema).0)
  {
    var after := IssueSeal(b, chatId, resolved, o, schema).0;
    if after == b {
    } else {
      var input := resolved.value;
      var key := ChainKey(input.credentialId, chatId);
      assert after == Emit(b, key, input, PreviousFor(b, key), o, schema).0;
      EmitKeepsInv(b, key, input, PreviousFor(b, key), o, schema);
    }
  }

  lemma RefreshKeepsInv(b: Book, sealId: string, o: Outside, schema: Schema)
    requires Inv(b) && o.freshId !in b.seals
    ensures Inv(RefreshSeal(b, sealId, o, schema).0)
  {
    var after := RefreshSeal(b, sealId, o, schema).0;
    if after == b {
    } else {
      var key := b.seals[sealId].Key();
      var previous := Some(b.seals[sealId].chain.current);
      assert after == Emit(b, key, b.inputs[sealId], previous, o, schema).0;
      assert SealStored(b, sealId);
      assert HeadStored(b, key);
      EmitKeepsInv(b, key, b.inputs[sealId], previous, o, schema);
    }
  }

  lemma StepKeepsInv(b: Book, op: Op, schema: Schema)
    requires Inv(b) && Sane(b, op)
    ensures Inv(Step(b, op, schema).0)
  {
    match op
    case Issue(_, chatId, resolved, o) => IssueKeepsInv(b, chatId, resolved, o, schema);
    case Refresh(sealId, o) => RefreshKeepsInv(b, sealId, o, schema);
    case Revoke(sealId, accepted, o) => RevokeKeepsInv(b, sealId, accepted, o);
  }

  lemma EmptyInv()
    ensures Inv(EMPTY)
  {
  }

  lemma {:induction false} RunKeepsInv(b: Book, ops: seq<Op>, schema: Schema)
    requires Inv(b) && SaneRun(b, ops, schema)
    ensures Inv(Run(b, ops, schema))
    decreases |ops|
  {
    if ops != [] {
      StepKeepsInv(b, ops[0], schema);
      RunKeepsInv(Step(b, ops[0], schema).0, ops[1..], schema);
    }
  }
}
