/** The seal manager: four in-memory collections and the calls that change
    them. Each call is proved to be the matching transition of `SealBook`. */
module SealManager {
  import opened Prelude
  import opened SealDelta
  import opened SealChain
  import opened SealBook
  import opened SealRuns
  import opened SealLaws
  import opened SealOutcomes

  class Manager {
    var currentSeals: map<string, Envelope>
    var sealsById: map<string, Envelope>
    var sealOrder: seq<string>
    var inputsBySealId: map<string, Input>
    var revokedPairs: set<string>
    const schema: Schema

    function View(): Book
      reads this
    {
      Book(currentSeals, sealsById, sealOrder, inputsBySealId, revokedPairs)
    }

    constructor (schema: Schema)
      ensures View() == EMPTY && Inv(View()) && this.schema == schema
    {
      currentSeals, sealsById, sealOrder, inputsBySealId, revokedPairs := map[], map[], [], map[], {};
      this.schema := schema;
    }

    method Issue(credentialId: string, chatId: string, resolved: Option<Input>, o: Outside) returns (reply: Reply)
      requires Inv(View()) && Sane(View(), Op.Issue(credentialId, chatId, resolved, o))
      modifies this
      ensures (View(), reply) == old(Step(View(), Op.Issue(credentialId, chatId, resolved, o), schema))
      ensures Inv(View())
    {
      IssueKeepsInv(View(), chatId, resolved, o, schema);
      if resolved.None? {
        return Err(ResolveFailed);
      }
      var input := resolved.value;
      var key := ChainKey(input.credentialId, chatId);
      if key in revokedPairs {
        return Err(PairRevoked);
      }
      var previous: Option<Payload> := None;
      if key in currentSeals {
        var head := currentSeals[key];
        previous := Some(head.chain.current);
        if head.Id() in inputsBySealId {
          var delta := ComputePayloadDelta(head.chain.current.permissions, input.permissions);
          if !IsMaterialChange(delta) && !HasInputChanges(inputsBySealId[head.Id()], input) {
            return Ok(head);
          }
        }
      }
      reply := Publish(key, input, previous, o);
    }

    /** Shared tail of issuing and refreshing: build, sign, publish, track. */
    method Publish(key: string, input: Input, previous: Option<Payload>, o: Outside) returns (reply: Reply)
      modifies this
      ensures (View(), reply) == old(Emit(View(), key, input, previous, o, schema))
    {
      var built := BuildSeal(input, previous, o.freshId, o.now, schema);
      if built.None? {
        return Err(Invalid);
      }
      if o.signature.None? {
        return Err(SignFailed);
      }
      var envelope := Envelope(built.value, o.signature.value);
      if !o.published {
        return Err(PublishFailed);
      }
      currentSeals := currentSeals[key := envelope];
      if envelope.Id() !in sealsById {
        sealOrder := sealOrder + [envelope.Id()];
      }
      sealsById := sealsById[envelope.Id() := envelope];
      inputsBySealId := inputsBySealId[envelope.Id() := input];
      reply := Ok(envelope);
    }

    method Refresh(sealId: string, o: Outside) returns (reply: Reply)
      requires Inv(View()) && Sane(View(), Op.Refresh(sealId, o))
      modifies this
      ensures (View(), reply) == old(Step(View(), Op.Refresh(sealId, o), schema))
      ensures Inv(View())
    {
      RefreshKeepsInv(View(), sealId, o, schema);
      if sealId !in sealsById {
        return Err(SealNotFound);
      }
      if sealId !in inputsBySealId {
        return Err(InputNotFound);
      }
      var current := sealsById[sealId].chain.current;
      var key := ChainKey(current.credentialId, current.chatId);
      if key !in currentSeals || currentSeals[key].Id() != sealId {
        return Err(NotHead);
      }
      if key in revokedPairs {
        return Err(PairRevoked);
      }
      reply := Publish(key, inputsBySealId[sealId], Some(current), o);
    }

    method Revoke(sealId: string, accepted: bool, o: Outside) returns (reply: Reply)
      requires Inv(View()) && Sane(View(), Op.Revoke(sealId, accepted, o))
      modifies this
      ensures (View(), reply) == old(Step(View(), Op.Revoke(sealId, accepted, o), schema))
      ensures Inv(View())
      ensures reply.Ok? <==> sealId in sealsById && old(sealsById[sealId].Key() !in revokedPairs)
                             && accepted && o.signature.Some? && o.published
      ensures reply.Ok? ==> sealsById[sealId].Key() in revokedPairs && sealsById[sealId].Key() !in currentSeals
      ensures reply.Err? ==> View() == old(View())
    {
      RevokeDecides(View(), sealId, accepted, o, schema);
      RevokeKeepsInv(View(), sealId, accepted, o);
      if sealId !in sealsById {
        return Err(SealNotFound);
      }
      var existing := sealsById[sealId];
      var key := existing.Key();
      if key in revokedPairs {
        return Err(PairRevoked);
      }
      if !accepted {
        return Err(Invalid);
      }
      if o.signature.None? {
        return Err(SignFailed);
      }
      if !o.published {
        return Err(PublishFailed);
      }
      Withdraw(key);
      reply := Ok(existing);
    }

    method Withdraw(key: string)
      modifies this
      ensures View() == old(Retire(View(), key))
    {
      revokedPairs := revokedPairs + {key};
      currentSeals := currentSeals - {key};
    }

    method Current(credentialId: string, chatId: string) returns (head: Option<Envelope>)
      requires Inv(View())
      ensures head.Some? <==> PairIds(View(), credentialId, chatId) != [] && ChainKey(credentialId, chatId) !in revokedPairs
      ensures head.Some? ==> var seals := PairSeals(View(), credentialId, chatId);
                             head.value == seals[|seals| - 1]
    {
      var key := ChainKey(credentialId, chatId);
      HeadNotRevoked(View(), key);
      if key in currentSeals {
        HeadPair(View(), credentialId, chatId);
        assert HeadLast(View(), key);
        HistoryHeadIsNewest(View(), credentialId, chatId);
        head := Some(currentSeals[key]);
      } else {
        if key !in revokedPairs {
          NoHeadNoSeals(View(), credentialId, chatId);
        }
        head := None;
      }
    }

    /** Walks back from the newest seal. Every seal ever stored for the pair is
        returned once, newest first, whether or not the pair is revoked. */
    method History(credentialId: string, chatId: string) returns (history: seq<Envelope>)
      requires Inv(View())
      ensures history == Reverse(PairSeals(View(), credentialId, chatId))
    {
      var envelopes := PairSeals(View(), credentialId, chatId);
      if envelopes == [] {
        return [];
      }
      HistoryHeadIsNewest(View(), credentialId, chatId);
      PairChain(View(), credentialId, chatId);
      forall i | 0 <= i < |envelopes|
        ensures envelopes[i].Id() in sealsById && sealsById[envelopes[i].Id()] == envelopes[i]
      {
        assert envelopes[i] in envelopes;
        PairComplete(View(), credentialId, chatId, envelopes[i]);
      }
      var key := ChainKey(credentialId, chatId);
      var head := if key in currentSeals then Some(currentSeals[key]) else FindHistoryHead(envelopes);
      history := Walk(head, envelopes);
    }

    method Walk(head: Option<Envelope>, ghost chain: seq<Envelope>) returns (history: seq<Envelope>)
      requires IsChain(chain) && chain != [] && head == Some(chain[|chain| - 1])
      requires forall i :: 0 <= i < |chain| ==> chain[i].Id() in sealsById && sealsById[chain[i].Id()] == chain[i]
      ensures history == Reverse(chain)
    {
      history := [];
      var seen: set<string> := {};
      var cursor := head;
      ghost var left := |chain|;
      while cursor.Some? && cursor.value.Id() !in seen
        invariant 0 <= left <= |chain|
        invariant cursor == if left == 0 then None else Some(chain[left - 1])
        invariant history == Reverse(chain[left..])
        invariant forall i :: 0 <= i < left ==> chain[i].Id() !in seen
        decreases left
      {
        left := left - 1;
        assert chain[left].chain.previous == PayloadBefore(chain, left);
        assert chain[left..] == [chain[left]] + chain[left + 1..];
        ReverseCons(chain[left], chain[left + 1..]);
        history := history + [cursor.value];
        seen := seen + {cursor.value.Id()};
        var previous := cursor.value.chain.previous;
        cursor := if previous.Some? && previous.value.sealId in sealsById then Some(sealsById[previous.value.sealId]) else None;
      }
      assert chain[0..] == chain;
    }
  }
}
