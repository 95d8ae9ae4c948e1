/** Seal payloads, the chain link between a seal and its predecessor, and the
    checks a verifier runs on a link. */
module SealChain {
  import opened Prelude
  import opened Ordering
  import opened Json
  import opened Scopes
  import opened SealDelta

  /** What a seal is built from; absent metadata is `Undefined`. */
  datatype Input = Input(
    credentialId: string,
    operatorId: string,
    chatId: string,
    scopeMode: string,
    permissions: ScopeSet,
    adminAccess: Value,
    bypassed: bool,
    trustTier: Option<string>,
    operatorDisclosures: Value,
    provenanceMap: Value)

  datatype Payload = Payload(
    sealId: string,
    credentialId: string,
    operatorId: string,
    chatId: string,
    scopeMode: string,
    permissions: ScopeSet,
    adminAccess: Value,
    issuedAt: int,
    bypassed: bool,
    trustTier: Option<string>,
    operatorDisclosures: Value,
    provenanceMap: Value)

  datatype Chain = Chain(current: Payload, previous: Option<Payload>, delta: Delta)

  // ---- Resource identifiers ----------------------------------------------

  const ID_HEX_LENGTH := 16

  predicate IsLowerHex(c: char) { '0' <= c <= '9' || 'a' <= c <= 'f' }

  predicate ValidId(id: string, prefix: string) {
    && prefix <= id
    && |id| == |prefix| + ID_HEX_LENGTH
    && forall i :: |prefix| <= i < |id| ==> IsLowerHex(id[i])
  }

  predicate ValidIds(p: Payload) {
    && ValidId(p.sealId, "seal_")
    && ValidId(p.credentialId, "cred_")
    && ValidId(p.operatorId, "op_")
    && ValidId(p.chatId, "conv_")
  }

  /** The checks of the payload schema beyond the shape of identifiers. */
  type Schema = Payload -> bool

  // ---- Building ----------------------------------------------------------

  function PayloadOf(input: Input, sealId: string, now: int): Payload {
    Payload(sealId, input.credentialId, input.operatorId, input.chatId, input.scopeMode, input.permissions,
            input.adminAccess, now, input.bypassed, input.trustTier, input.operatorDisclosures, input.provenanceMap)
  }

  function LinkDelta(previous: Option<Payload>, current: Payload): Delta {
    if previous.Some? then PayloadDelta(previous.value.permissions, current.permissions) else NO_DELTA
  }

  function BuildSeal(input: Input, previous: Option<Payload>, sealId: string, now: int, schema: Schema): Option<Chain> {
    var current := PayloadOf(input, sealId, now);
    if ValidIds(current) && schema(current) then Some(Chain(current, previous, LinkDelta(previous, current))) else None
  }

  // ---- Checking ----------------------------------------------------------

  datatype ChainFault = OperatorMismatch | CredentialMismatch | ChatMismatch | IssuedBeforePrevious

  function ValidateSealChain(chain: Chain): Option<ChainFault> {
    if chain.previous.None? then None
    else
      var previous := chain.previous.value;
      if chain.current.operatorId != previous.operatorId then Some(OperatorMismatch)
      else if chain.current.credentialId != previous.credentialId then Some(CredentialMismatch)
      else if chain.current.chatId != previous.chatId then Some(ChatMismatch)
      else if chain.current.issuedAt < previous.issuedAt then Some(IssuedBeforePrevious)
      else None
  }

  /** A link passes exactly when operator, credential and chat stay the same and
      time does not go back. */
  lemma ValidLinkIff(chain: Chain)
    ensures ValidateSealChain(chain).None? <==> forall p :: chain.previous == Some(p) ==>
      && p.operatorId == chain.current.operatorId && p.credentialId == chain.current.credentialId
      && p.chatId == chain.current.chatId && p.issuedAt <= chain.current.issuedAt
  {
    if chain.previous.Some? {
      assert chain.previous == Some(chain.previous.value);
    }
  }

  predicate ScopeBefore(a: Change, b: Change) { Before(a.scope, b.scope) }

  predicate DeltaEquals(a: Delta, b: Delta) {
    && |a.added| == |b.added|
    && |a.removed| == |b.removed|
    && |a.changed| == |b.changed|
    && Sort(a.added, Before) == Sort(b.added, Before)
    && Sort(a.removed, Before) == Sort(b.removed, Before)
    && Sort(a.changed, ScopeBefore) == Sort(b.changed, ScopeBefore)
  }

  predicate VerifyChainDelta(chain: Chain) {
    DeltaEquals(LinkDelta(chain.previous, chain.current), chain.delta)
  }

  /** The stored delta is accepted exactly when it lists the recomputed
      changes, list by list, in any order. */
  lemma VerifyChainDeltaIff(chain: Chain)
    ensures var expected := LinkDelta(chain.previous, chain.current);
      VerifyChainDelta(chain) <==>
        && multiset(chain.delta.added) == multiset(expected.added)
        && multiset(chain.delta.removed) == multiset(expected.removed)
        && multiset(chain.delta.changed) == multiset(expected.changed)
  {
    var a, b := LinkDelta(chain.previous, chain.current), chain.delta;
    SameSortIffScopes(a.added, b.added);
    SameSortIffScopes(a.removed, b.removed);
    if chain.previous.Some? {
      FlipsDistinct(chain.previous.value.permissions, chain.current.permissions);
    }
    SameSortIffChanges(a.changed, b.changed);
    SortMultiset(a.added, Before);
    SortMultiset(b.added, Before);
    SortMultiset(a.removed, Before);
    SortMultiset(b.removed, Before);
    SortMultiset(a.changed, ScopeBefore);
    SortMultiset(b.changed, ScopeBefore);
  }

  lemma SameSortIffScopes(a: seq<Scope>, b: seq<Scope>)
    ensures Sort(a, Before) == Sort(b, Before) <==> multiset(a) == multiset(b)
  {
    BeforeIsStrictOrder();
    forall x, y: Scope
      ensures x != y ==> Before(x, y) || Before(y, x)
    {
      BeforeTotal(x, y);
    }
    SameSortIff(a, b, Before);
  }

  lemma ScopeBeforeIsStrictOrder()
    ensures StrictWeakOrder(ScopeBefore)
  {
    BeforeIsStrictOrder();
    forall x, y, z: Change
      ensures !ScopeBefore(x, x)
      ensures ScopeBefore(x, y) && ScopeBefore(y, z) ==> ScopeBefore(x, z)
      ensures ScopeBefore(x, z) ==> ScopeBefore(x, y) || ScopeBefore(y, z)
    {
      assert !Before(x.scope, x.scope);
      assert Before(x.scope, y.scope) && Before(y.scope, z.scope) ==> Before(x.scope, z.scope);
      assert Before(x.scope, z.scope) ==> Before(x.scope, y.scope) || Before(y.scope, z.scope);
    }
  }

  lemma SameSortIffChanges(a: seq<Change>, b: seq<Change>)
    requires forall i, j :: 0 <= i < j < |a| ==> a[i].scope != a[j].scope
    ensures Sort(a, ScopeBefore) == Sort(b, ScopeBefore) <==> multiset(a) == multiset(b)
  {
    ScopeBeforeIsStrictOrder();
    forall x, y | x in a && y in a && x != y
      ensures ScopeBefore(x, y) || ScopeBefore(y, x)
    {
      var i :| 0 <= i < |a| && a[i] == x;
      var j :| 0 <= j < |a| && a[j] == y;
      BeforeTotal(x.scope, y.scope);
    }
    SameSortIff(a, b, ScopeBefore);
  }
}
