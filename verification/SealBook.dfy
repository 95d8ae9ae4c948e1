/** The seal manager's bookkeeping as a state and its transitions. One call of
    the manager is one transition; signer, publisher, resolver, clock and
    identifier generator appear as the values they returned. */
module SealBook {
  import opened Prelude
  import opened Json
  import opened SealDelta
  import opened SealChain

  datatype Envelope = Envelope(chain: Chain, signature: string) {
    function Id(): string { chain.current.sealId }
    function Key(): string { ChainKey(chain.current.credentialId, chain.current.chatId) }
    predicate Of(credentialId: string, chatId: string) {
      chain.current.credentialId == credentialId && chain.current.chatId == chatId
    }
  }

  function ChainKey(credentialId: string, chatId: string): string {
    credentialId + ":" + chatId
  }

  /** `order` lists the identifiers of `seals` as they were stored. */
  datatype Book = Book(
    current: map<string, Envelope>,
    seals: map<string, Envelope>,
    order: seq<string>,
    inputs: map<string, Input>,
    revoked: set<string>)

  const EMPTY := Book(map[], map[], [], map[], {})

  datatype SealFault =
    | ResolveFailed
    | PairRevoked
    | Invalid
    | SignFailed
    | PublishFailed
    | SealNotFound
    | InputNotFound
    | NotHead

  type Reply = Result<Envelope, SealFault>

  /** What the outside world answered while one seal was being made. */
  datatype Outside = Outside(freshId: string, now: int, signature: Option<string>, published: bool)

  datatype Op =
    | Issue(credentialId: string, chatId: string, resolved: Option<Input>, outside: Outside)
    | Refresh(sealId: string, outside: Outside)
    | Revoke(sealId: string, accepted: bool, outside: Outside)

  // ---- Transitions -------------------------------------------------------

  /** Metadata compared through its canonical text. */
  predicate SameText(a: Value, b: Value) { Canonical(a) == Canonical(b) }

  predicate HasInputChanges(previous: Input, next: Input) {
    || previous.credentialId != next.credentialId
    || previous.operatorId != next.operatorId
    || previous.chatId != next.chatId
    || previous.scopeMode != next.scopeMode
    || !SameText(previous.adminAccess, next.adminAccess)
    || previous.trustTier != next.trustTier
    || !SameText(previous.operatorDisclosures, next.operatorDisclosures)
    || !SameText(previous.provenanceMap, next.provenanceMap)
  }

  predicate IsMaterialChange(d: Delta) {
    |d.added| > 0 || |d.removed| > 0 || |d.changed| > 0
  }

  predicate IsQuiet(b: Book, key: string, input: Input) {
    && key in b.current
    && b.current[key].Id() in b.inputs
    && !IsMaterialChange(PayloadDelta(b.current[key].chain.current.permissions, input.permissions))
    && !HasInputChanges(b.inputs[b.current[key].Id()], input)
  }

  function Track(b: Book, key: string, envelope: Envelope, input: Input): Book {
    Book(
      b.current[key := envelope],
      b.seals[envelope.Id() := envelope],
      if envelope.Id() in b.seals then b.order else b.order + [envelope.Id()],
      b.inputs[envelope.Id() := input],
      b.revoked)
  }

  /** Build, sign and publish a seal, and track it only if all succeeded. */
  function Emit(b: Book, key: string, input: Input, previous: Option<Payload>, o: Outside, schema: Schema): (Book, Reply) {
    var built := BuildSeal(input, previous, o.freshId, o.now, schema);
    if built.None? then (b, Err(Invalid))
    else if o.signature.None? then (b, Err(SignFailed))
    else if !o.published then (b, Err(PublishFailed))
    else
      var envelope := Envelope(built.value, o.signature.value);
      (Track(b, key, envelope, input), Ok(envelope))
  }

  function IssueSeal(b: Book, chatId: string, resolved: Option<Input>, o: Outside, schema: Schema): (Book, Reply) {
    if resolved.None? then (b, Err(ResolveFailed))
    else
      var input := resolved.value;
      var key := ChainKey(input.credentialId, chatId);
      if key in b.revoked then (b, Err(PairRevoked))
      else if IsQuiet(b, key, input) then (b, Ok(b.current[key]))
      else
        var previous := if key in b.current then Some(b.current[key].chain.current) else None;
        Emit(b, key, input, previous, o, schema)
  }

  function RefreshSeal(b: Book, sealId: string, o: Outside, schema: Schema): (Book, Reply) {
    if sealId !in b.seals then (b, Err(SealNotFound))
    else if sealId !in b.inputs then (b, Err(InputNotFound))
    else
      var current := b.seals[sealId].chain.current;
      var key := b.seals[sealId].Key();
      if key !in b.current || b.current[key].Id() != sealId then (b, Err(NotHead))
      else if key in b.revoked then (b, Err(PairRevoked))
      else Emit(b, key, b.inputs[sealId], Some(current), o, schema)
  }

  function Retire(b: Book, key: string): Book {
    b.(current := b.current - {key}, revoked := b.revoked + {key})
  }

  function RevokeSeal(b: Book, sealId: string, accepted: bool, o: Outside): (Book, Reply) {
    if sealId !in b.seals then (b, Err(SealNotFound))
    else
      var key := b.seals[sealId].Key();
      if key in b.revoked then (b, Err(PairRevoked))
      else if !accepted then (b, Err(Invalid))
      else if o.signature.None? then (b, Err(SignFailed))
      else if !o.published then (b, Err(PublishFailed))
      else (Retire(b, key), Ok(b.seals[sealId]))
  }

  function Step(b: Book, op: Op, schema: Schema): (Book, Reply) {
    match op
    case Issue(_, chatId, resolved, o) => IssueSeal(b, chatId, resolved, o, schema)
    case Refresh(sealId, o) => RefreshSeal(b, sealId, o, schema)
    case Revoke(sealId, accepted, o) => RevokeSeal(b, sealId, accepted, o)
  }

  function Run(b: Book, ops: seq<Op>, schema: Schema): Book
    decreases |ops|
  {
    if ops == [] then b else Run(Step(b, ops[0], schema).0, ops[1..], schema)
  }

  predicate WellFormedInput(input: Input) {
    WellFormed(input.adminAccess) && WellFormed(input.operatorDisclosures) && WellFormed(input.provenanceMap)
  }

  /** Identifiers are fresh, and the resolver answers for the pair it was asked about. */
  predicate Sane(b: Book, op: Op) {
    && op.outside.freshId !in b.seals
    && (op.Issue? && op.resolved.Some? ==>
          && op.resolved.value.credentialId == op.credentialId
          && op.resolved.value.chatId == op.chatId
          && WellFormedInput(op.resolved.value))
  }

  predicate SaneRun(b: Book, ops: seq<Op>, schema: Schema)
    decreases |ops|
  {
    ops == [] || (Sane(b, ops[0]) && SaneRun(Step(b, ops[0], schema).0, ops[1..], schema))
  }

  // ---- The seals of one pair ---------------------------------------------

  function InPair(seals: map<string, Envelope>, credentialId: string, chatId: string): string -> bool {
    id => id in seals && seals[id].Of(credentialId, chatId)
  }

  /** Every seal ever issued for the pair, oldest first. */
  function PairIds(b: Book, credentialId: string, chatId: string): (ids: seq<string>) {
    Filter(b.order, InPair(b.seals, credentialId, chatId))
  }

  function Fetch(seals: map<string, Envelope>, ids: seq<string>): (r: seq<Envelope>)
    requires forall id :: id in ids ==> id in seals
    ensures |r| == |ids| && forall i :: 0 <= i < |ids| ==> r[i] == seals[ids[i]]
  {
    seq(|ids|, i requires 0 <= i < |ids| => seals[ids[i]])
  }

  function PairSeals(b: Book, credentialId: string, chatId: string): seq<Envelope> {
    Fetch(b.seals, PairIds(b, credentialId, chatId))
  }

  /** What the chain link at position `i` must point back to. */
  ghost function Predecessor(seals: map<string, Envelope>, ids: seq<string>, i: nat): Option<Payload>
    requires i < |ids| && forall id :: id in ids ==> id in seals
  {
    if i == 0 then None else Some(seals[ids[i - 1]].chain.current)
  }

  ghost predicate Linked(seals: map<string, Envelope>, ids: seq<string>) {
    && (forall id :: id in ids ==> id in seals)
    && (forall i {:trigger Predecessor(seals, ids, i)} :: 0 <= i < |ids| ==> seals[ids[i]].chain.previous == Predecessor(seals, ids, i))
  }

  // ---- Invariant ---------------------------------------------------------

  ghost predicate Stored(b: Book) {
    && Distinct(b.order)
    && (forall id :: id in b.order <==> id in b.seals)
    && b.inputs.Keys == b.seals.Keys
    && (forall id :: id in b.seals ==> SealStored(b, id))
  }

  ghost predicate SealStored(b: Book, id: string)
    requires id in b.seals && b.inputs.Keys == b.seals.Keys
  {
    var p := b.seals[id].chain.current;
    && p.sealId == id
    && ValidIds(p)
    && p == PayloadOf(b.inputs[id], id, p.issuedAt)
    && WellFormedInput(b.inputs[id])
    && b.seals[id].chain.delta == LinkDelta(b.seals[id].chain.previous, p)
  }

  /** A head is a stored seal of an unrevoked pair... */
  ghost predicate HeadStored(b: Book, key: string)
    requires key in b.current
  {
    var e := b.current[key];
    key == e.Key() && key !in b.revoked && e.Id() in b.seals && b.seals[e.Id()] == e
  }

  /** ...namely the newest one. */
  ghost predicate HeadLast(b: Book, key: string)
    requires key in b.current
  {
    var e := b.current[key];
    LastId(PairIds(b, e.chain.current.credentialId, e.chain.current.chatId)) == Some(e.Id())
  }

  function LastId(ids: seq<string>): Option<string> {
    if ids == [] then None else Some(ids[|ids| - 1])
  }

  /** The seals of every pair form one chain. */
  ghost predicate AllLinked(b: Book) {
    forall c, h :: Linked(b.seals, PairIds(b, c, h))
  }

  ghost predicate HeadsStored(b: Book) {
    forall key :: key in b.current ==> HeadStored(b, key)
  }

  ghost predicate HeadsLast(b: Book) {
    forall key :: key in b.current ==> HeadLast(b, key)
  }

  ghost predicate PairsSettled(b: Book) {
    forall id :: id in b.seals ==> b.seals[id].Key() in b.current || b.seals[id].Key() in b.revoked
  }

  ghost predicate Inv(b: Book) {
    Stored(b) && AllLinked(b) && HeadsStored(b) && HeadsLast(b) && PairsSettled(b)
  }
}
