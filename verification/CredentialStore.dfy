/** The credential manager's store as a state and its transitions. Times are
    milliseconds; each call reads the clock once. */
module CredentialStore {
  import opened Prelude
  import opened Ordering
  import opened Scopes
  import opened PolicyHash

  datatype Status = Pending | Active | Expired | Revoked

  datatype Record = Record(
    credentialId: string,
    token: string,
    operatorId: string,
    chatIds: seq<string>,
    effectiveScopes: ScopeSet,
    resolvedScopes: set<Scope>,
    policyHash: string,
    status: Status,
    heartbeatInterval: int,
    lastHeartbeat: int,
    issuedAt: int,
    expiresAt: int,
    issuedBy: string,
    ttlMs: int,
    revokedAt: Option<int>,
    revocationReason: Option<string>)

  /** `hash` stands for the runtime's string hash. */
  datatype Config = Config(
    defaultTtlSeconds: int,
    maxConcurrentPerOperator: int,
    renewalWindowSeconds: int,
    heartbeatGracePeriod: int,
    hash: string -> string,
    collate: Collation)

  /** `order` lists the keys of `byId` as they were inserted. */
  datatype Store = Store(
    byId: map<string, Record>,
    order: seq<string>,
    byToken: map<string, string>,
    byOperator: map<string, seq<string>>)

  const EMPTY := Store(map[], [], map[], map[])

  datatype Fault = NotFound | CredentialExpired | NotInRenewalWindow

  type Answer = Result<Record, Fault>

  /** A request to issue, with the identifier and token generated for it. */
  datatype Request = Request(
    operatorId: string,
    chatIds: seq<string>,
    allow: Option<seq<Scope>>,
    deny: Option<seq<Scope>>,
    ttlSeconds: Option<int>,
    issuedBy: Option<string>,
    freshId: string,
    freshToken: string)

  // ---- Pieces ------------------------------------------------------------

  function PolicyHashOf(cfg: Config, scopes: ScopeSet, chatIds: seq<string>): string {
    cfg.hash(CanonicalPolicy(scopes, chatIds, cfg.collate))
  }

  function RequestedScopes(r: Request): ScopeSet {
    ScopeSet(if r.allow.Some? then r.allow.value else [], if r.deny.Some? then r.deny.value else [])
  }

  function Fresh(cfg: Config, r: Request, now: int): Record {
    var scopes := RequestedScopes(r);
    var ttlMs := (if r.ttlSeconds.Some? then r.ttlSeconds.value else cfg.defaultTtlSeconds) * 1000;
    Record(r.freshId, r.freshToken, r.operatorId, r.chatIds, scopes, Resolved(scopes),
           PolicyHashOf(cfg, scopes, r.chatIds), Active, 30, now, now, now + ttlMs,
           if r.issuedBy.Some? then r.issuedBy.value else "owner", ttlMs, None, None)
  }

  function IdsOf(s: Store, operatorId: string): seq<string> {
    if operatorId in s.byOperator then s.byOperator[operatorId] else []
  }

  function IsActive(byId: map<string, Record>): string -> bool {
    id => id in byId && byId[id].status == Active
  }

  /** The operator's active credentials in the order they were added. */
  function ActiveIds(s: Store, operatorId: string): seq<string> {
    Filter(IdsOf(s, operatorId), IsActive(s.byId))
  }

  function Upsert(s: Store, r: Record): Store {
    var ids := IdsOf(s, r.operatorId);
    Store(
      s.byId[r.credentialId := r],
      if r.credentialId in s.byId then s.order else s.order + [r.credentialId],
      s.byToken[r.token := r.credentialId],
      s.byOperator[r.operatorId := if r.credentialId in ids then ids else ids + [r.credentialId]])
  }

  function AsRevoked(r: Record, reason: string, now: int): Record {
    r.(status := Revoked, revokedAt := Some(now), revocationReason := Some(reason))
  }

  function RevokeRecord(s: Store, id: string, reason: string, now: int): Store {
    if id in s.byId then s.(byId := s.byId[id := AsRevoked(s.byId[id], reason, now)]) else s
  }

  // ---- Issuing -----------------------------------------------------------

  function IssuedBefore(byId: map<string, Record>): (string, string) -> bool {
    (a, b) => a in byId && b in byId && byId[a].issuedAt < byId[b].issuedAt
  }

  /** The credential to give up before another is issued. */
  function Evicted(s: Store, cfg: Config, operatorId: string): Option<string> {
    var active := ActiveIds(s, operatorId);
    if |active| < cfg.maxConcurrentPerOperator then None
    else
      var sorted := Sort(active, IssuedBefore(s.byId));
      if sorted == [] then None else Some(sorted[0])
  }

  function AfterEviction(s: Store, cfg: Config, operatorId: string, now: int): Store {
    var evicted := Evicted(s, cfg, operatorId);
    if evicted.Some? then RevokeRecord(s, evicted.value, "policy-violation", now) else s
  }

  function HasHash(byId: map<string, Record>, hash: string): string -> bool {
    id => id in byId && byId[id].policyHash == hash
  }

  /** The operator's active credentials with the given policy hash. */
  function Twins(s: Store, operatorId: string, hash: string): seq<string> {
    Filter(ActiveIds(s, operatorId), HasHash(s.byId, hash))
  }

  function Issue(s: Store, cfg: Config, r: Request, now: int): (Store, Record)
  {
    var s1 := AfterEviction(s, cfg, r.operatorId, now);
    var twins := Twins(s1, r.operatorId, PolicyHashOf(cfg, RequestedScopes(r), r.chatIds));
    if twins != [] then assert twins[0] in twins; (s1, s1.byId[twins[0]])
    else (Upsert(s1, Fresh(cfg, r, now)), Fresh(cfg, r, now))
  }

  // ---- The other calls ---------------------------------------------------

  function GetByToken(s: Store, token: string, now: int): (Store, Answer) {
    if token !in s.byToken || s.byToken[token] !in s.byId then (s, Err(NotFound))
    else
      var id := s.byToken[token];
      var r := s.byId[id];
      if now >= r.expiresAt then (s.(byId := s.byId[id := r.(status := Expired)]), Err(CredentialExpired))
      else if r.status != Active then (s, Err(CredentialExpired))
      else (s, Ok(r))
  }

  /** A call that reads one record and, if it is active, replaces it. */
  function OnActive(s: Store, id: string, update: Record -> Record): (Store, Answer) {
    if id !in s.byId then (s, Err(NotFound))
    else if s.byId[id].status != Active then (s, Err(CredentialExpired))
    else (s.(byId := s.byId[id := update(s.byId[id])]), Ok(update(s.byId[id])))
  }

  function Beat(now: int): Record -> Record { (r: Record) => r.(lastHeartbeat := now) }

  function Renewed(now: int): Record -> Record { (r: Record) => r.(expiresAt := now + r.ttlMs) }

  function Rescoped(cfg: Config, scopes: ScopeSet): Record -> Record {
    (r: Record) => r.(effectiveScopes := scopes, resolvedScopes := Resolved(scopes),
                      policyHash := PolicyHashOf(cfg, scopes, r.chatIds))
  }

  function Renew(s: Store, cfg: Config, id: string, now: int): (Store, Answer) {
    if id in s.byId && s.byId[id].status == Active && s.byId[id].expiresAt - now > cfg.renewalWindowSeconds * 1000
    then (s, Err(NotInRenewalWindow))
    else OnActive(s, id, Renewed(now))
  }

  function RevokeCredential(s: Store, id: string, reason: string, now: int): (Store, Answer) {
    if id !in s.byId then (s, Err(NotFound))
    else (RevokeRecord(s, id, reason, now), Ok(AsRevoked(s.byId[id], reason, now)))
  }

  function RevokeEach(s: Store, ids: seq<string>, reason: string, now: int): Store {
    if ids == [] then s else RevokeRecord(RevokeEach(s, ids[..|ids| - 1], reason, now), ids[|ids| - 1], reason, now)
  }

  function RevokeAll(s: Store, operatorId: string, reason: string, now: int): Store {
    RevokeEach(s, ActiveIds(s, operatorId), reason, now)
  }

  // ---- Sweeping ----------------------------------------------------------

  function HeartbeatDeadline(cfg: Config, r: Record): int {
    r.lastHeartbeat + r.heartbeatInterval * 1000 + cfg.heartbeatGracePeriod * 1000
  }

  predicate PastTtl(r: Record, now: int) { now >= r.expiresAt }

  predicate PastHeartbeat(cfg: Config, r: Record, now: int) { now >= HeartbeatDeadline(cfg, r) }

  predicate Due(cfg: Config, r: Record, now: int) {
    r.status == Active && (PastTtl(r, now) || PastHeartbeat(cfg, r, now))
  }

  function SweptRecord(cfg: Config, r: Record, now: int): Record {
    if r.status != Active then r
    else if PastTtl(r, now) then r.(status := Expired)
    else if PastHeartbeat(cfg, r, now) then AsRevoked(r, "heartbeat-timeout", now)
    else r
  }

  function DueIn(cfg: Config, byId: map<string, Record>, now: int): string -> bool {
    id => id in byId && Due(cfg, byId[id], now)
  }

  function Sweep(s: Store, cfg: Config, now: int): Store {
    s.(byId := map id | id in s.byId :: SweptRecord(cfg, s.byId[id], now))
  }

  /** The identifiers swept, in store order. */
  function SweptIds(s: Store, cfg: Config, now: int): seq<string> {
    Filter(s.order, DueIn(cfg, s.byId, now))
  }

  // ---- Runs --------------------------------------------------------------

  /** The calls of the manager; `SetStatus`, which may write any status, is
      not one of them. */
  datatype Op =
    | IssueOp(request: Request)
    | GetByTokenOp(token: string)
    | HeartbeatOp(id: string)
    | RenewOp(id: string)
    | UpdateScopesOp(id: string, scopes: ScopeSet)
    | RevokeOp(id: string, reason: string)
    | RevokeAllOp(operatorId: string, reason: string)
    | SweepOp

  datatype Call = Call(op: Op, now: int)

  function Step(s: Store, cfg: Config, call: Call): Store {
    match call.op
    case IssueOp(r) => Issue(s, cfg, r, call.now).0
    case GetByTokenOp(token) => GetByToken(s, token, call.now).0
    case HeartbeatOp(id) => OnActive(s, id, Beat(call.now)).0
    case RenewOp(id) => Renew(s, cfg, id, call.now).0
    case UpdateScopesOp(id, scopes) => OnActive(s, id, Rescoped(cfg, scopes)).0
    case RevokeOp(id, reason) => RevokeCredential(s, id, reason, call.now).0
    case RevokeAllOp(operatorId, reason) => RevokeAll(s, operatorId, reason, call.now)
    case SweepOp => Sweep(s, cfg, call.now)
  }

  function Run(s: Store, cfg: Config, calls: seq<Call>): Store
    decreases |calls|
  {
    if calls == [] then s else Run(Step(s, cfg, calls[0]), cfg, calls[1..])
  }

  /** Generated identifiers and tokens are new. */
  predicate IsFresh(s: Store, r: Request) {
    r.freshId !in s.byId && r.freshToken !in s.byToken
  }

  /** A call that the clock and the generators allow. */
  predicate Sane(s: Store, call: Call, clock: int) {
    clock <= call.now && (call.op.IssueOp? ==> IsFresh(s, call.op.request))
  }

  predicate SaneRun(s: Store, cfg: Config, calls: seq<Call>, clock: int)
    decreases |calls|
  {
    calls == [] || (Sane(s, calls[0], clock) && SaneRun(Step(s, cfg, calls[0]), cfg, calls[1..], calls[0].now))
  }

  function Clock(calls: seq<Call>, clock: int): int {
    if calls == [] then clock else calls[|calls| - 1].now
  }

  // ---- Invariant ---------------------------------------------------------

  ghost predicate OrderExact(s: Store) {
    && Distinct(s.order)
    && (forall id :: id in s.order <==> id in s.byId)
    && (forall id :: id in s.byId ==> s.byId[id].credentialId == id)
  }

  /** The token index maps exactly each record's token to its identifier. */
  ghost predicate TokensExact(s: Store) {
    && (forall id :: id in s.byId ==> s.byId[id].token in s.byToken && s.byToken[s.byId[id].token] == id)
    && (forall t :: t in s.byToken ==> s.byToken[t] in s.byId && s.byId[s.byToken[t]].token == t)
  }

  /** The operator index holds exactly the identifiers of each operator. */
  ghost predicate OperatorsExact(s: Store) {
    && (forall o :: Distinct(IdsOf(s, o)))
    && (forall o, id :: id in IdsOf(s, o) <==> id in s.byId && s.byId[id].operatorId == o)
  }

  ghost predicate Indexed(s: Store) {
    OrderExact(s) && TokensExact(s) && OperatorsExact(s)
  }

  /** Derived fields agree with the fields they come from. */
  ghost predicate RecordDerived(cfg: Config, r: Record, now: int) {
    && r.resolvedScopes == Resolved(r.effectiveScopes)
    && r.policyHash == PolicyHashOf(cfg, r.effectiveScopes, r.chatIds)
    && r.expiresAt <= now + r.ttlMs
    && r.issuedAt <= now && r.lastHeartbeat <= now
  }

  ghost predicate Derived(s: Store, cfg: Config, now: int) {
    forall id :: id in s.byId ==> RecordDerived(cfg, s.byId[id], now)
  }

  ghost predicate Bounded(s: Store, cfg: Config) {
    forall o {:trigger ActiveIds(s, o)} :: |ActiveIds(s, o)| <= cfg.maxConcurrentPerOperator
  }

  ghost predicate Inv(s: Store, cfg: Config, now: int) {
    Indexed(s) && Derived(s, cfg, now) && Bounded(s, cfg)
  }

  // ---- What a record keeps for life --------------------------------------

  /** Every call but the creation of a record only rewrites records: identity
      never changes, expiry never moves earlier, and a record that is not
      active stays so. */
  ghost predicate Later(r: Record, r': Record) {
    && r'.credentialId == r.credentialId && r'.token == r.token && r'.operatorId == r.operatorId
    && r'.chatIds == r.chatIds && r'.issuedAt == r.issuedAt && r'.issuedBy == r.issuedBy
    && r'.ttlMs == r.ttlMs && r'.heartbeatInterval == r.heartbeatInterval
    && r.expiresAt <= r'.expiresAt
    && (r'.status == Active ==> r.status == Active)
  }

  ghost predicate Rewrites(s: Store, s': Store) {
    && s'.order == s.order && s'.byToken == s.byToken && s'.byOperator == s.byOperator
    && s'.byId.Keys == s.byId.Keys
    && forall id :: id in s.byId ==> Later(s.byId[id], s'.byId[id])
  }
}
