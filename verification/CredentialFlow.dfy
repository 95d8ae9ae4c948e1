/** Service calls and scope-update actions that overlap. A call with a policy,
    and every action, waits once: for the policy lookup, or for the credential
    lookup it made through the service. What comes after acts on the record as
    it is then. */
module CredentialFlow {
  import opened Prelude
  import opened Scopes
  import opened CredentialStore
  import opened CredentialRuns
  import opened CredentialService

  // ---- Calls in two parts -------------------------------------------------

  /** What a call remembers while it waits. */
  datatype Waiting =
    | WaitIssue(request: Request)
    | WaitUpdate(id: string, changes: Changes)
    | WaitAction(id: string, scopes: ScopeSet)

  /** Up to the wait, or to the end of a call that does not wait. */
  function FirstPart(s: Store, cfg: Config, op: ServiceOp, now: int): (Store, Option<Waiting>) {
    match op
    case SvcIssue(r, policyId, _) =>
      var swept := Sweep(s, cfg, now);
      if policyId.None? then (Issue(swept, cfg, r, now).0, None) else (swept, Some(WaitIssue(r)))
    case SvcUpdate(id, changes, _) =>
      if changes.policyId.None? then (Update(s, cfg, id, changes, None, now).0, None)
      else if id !in s.byId || !Supported(changes) then (s, None)
      else (s, Some(WaitUpdate(id, changes)))
    case ActUpdateScopes(id, scopes) =>
      var swept := Sweep(s, cfg, now);
      (swept, if id in swept.byId && swept.byId[id].status == Active then Some(WaitAction(id, scopes)) else None)
    case _ => (ServiceStep(s, cfg, ServiceCall(op, now)), None)
  }

  predicate Supported(changes: Changes) {
    changes.operatorId.None? && changes.chatIds.None? && changes.ttlSeconds.None?
  }

  /** What the wait brought: the policy if one was found, and the identifier
      and token generated afterwards. */
  datatype Arrival = Arrival(policy: Option<ScopeSet>, freshId: string, freshToken: string)

  function Named(r: Request, a: Arrival): Request { r.(freshId := a.freshId, freshToken := a.freshToken) }

  function SecondPart(s: Store, cfg: Config, w: Waiting, a: Arrival, now: int): Store {
    match w
    case WaitIssue(r) => if a.policy.None? then s else Issue(s, cfg, Merged(Named(r, a), a.policy.value), now).0
    case WaitUpdate(id, changes) =>
      if a.policy.None? then s else Guarded(s, cfg, id, ResolvePolicy(a.policy.value, changes.allow, changes.deny), now).0
    case WaitAction(id, scopes) => Guarded(s, cfg, id, scopes, now).0
  }

  function PolicyOf(op: ServiceOp): Option<ScopeSet> {
    match op
    case SvcIssue(_, _, policy) => policy
    case SvcUpdate(_, _, policy) => policy
    case _ => None
  }

  /** A call with nothing between its two parts is the call as one transition. */
  lemma WholeCall(s: Store, cfg: Config, op: ServiceOp, now: int, a: Arrival)
    requires a.policy == PolicyOf(op)
    requires op.SvcIssue? ==> op.request == Named(op.request, a)
    ensures var (s1, w) := FirstPart(s, cfg, op, now);
      ServiceStep(s, cfg, ServiceCall(op, now)) == if w.None? then s1 else SecondPart(s1, cfg, w.value, a, now)
  {
    if op.SvcUpdate? && op.changes.policyId.None? && op.id in s.byId {
      assert NextScopes(s.byId[op.id], op.changes, op.policy) == NextScopes(s.byId[op.id], op.changes, None);
    }
  }

  // ---- Interleavings ------------------------------------------------------

  datatype Flow = Flow(store: Store, waiting: map<nat, Waiting>, next: nat)

  datatype Move = Begin(op: ServiceOp) | Resume(call: nat, arrival: Arrival)

  datatype Timed = Timed(move: Move, now: int)

  function FlowStep(f: Flow, cfg: Config, t: Timed): Flow {
    match t.move
    case Begin(op) =>
      var (s, w) := FirstPart(f.store, cfg, op, t.now);
      if w.None? then f.(store := s) else Flow(s, f.waiting[f.next := w.value], f.next + 1)
    case Resume(call, a) =>
      if call !in f.waiting then f
      else f.(store := SecondPart(f.store, cfg, f.waiting[call], a, t.now), waiting := f.waiting - {call})
  }

  function FlowRun(f: Flow, cfg: Config, moves: seq<Timed>): Flow
    decreases |moves|
  {
    if moves == [] then f else FlowRun(FlowStep(f, cfg, moves[0]), cfg, moves[1..])
  }

  /** The clock does not run backwards, and identifiers are fresh when a
      credential is issued. */
  predicate SaneMove(f: Flow, t: Timed, clock: int) {
    && clock <= t.now
    && match t.move
       case Begin(op) => op.SvcIssue? && op.policyId.None? ==> IsFresh(f.store, op.request)
       case Resume(call, a) => call in f.waiting && f.waiting[call].WaitIssue? ==> IsFresh(f.store, Named(f.waiting[call].request, a))
  }

  predicate SaneMoves(f: Flow, cfg: Config, moves: seq<Timed>, clock: int)
    decreases |moves|
  {
    moves == [] || (SaneMove(f, moves[0], clock) && SaneMoves(FlowStep(f, cfg, moves[0]), cfg, moves[1..], moves[0].now))
  }

  function FlowClock(moves: seq<Timed>, clock: int): int {
    if moves == [] then clock else moves[|moves| - 1].now
  }

  // ---- Nothing widens -----------------------------------------------------

  /** A later store that keeps the invariant and widens nothing. */
  ghost predicate Good(s: Store, s': Store, cfg: Config, now: int) {
    Inv(s', cfg, now) && Narrows(s, s')
  }

  lemma GoodAs(s: Store, a: Store, b: Store, cfg: Config, now: int)
    requires Good(s, a, cfg, now) && b == a
    ensures Good(s, b, cfg, now)
  {
  }

  /** The first part is the sweep, or a whole call. */
  function FirstWhole(s: Store, cfg: Config, op: ServiceOp, now: int): Store {
    match op
    case SvcIssue(r, policyId, _) => if policyId.None? then ServiceIssue(s, cfg, r, None, None, now) else Sweep(s, cfg, now)
    case SvcUpdate(id, changes, _) => if changes.policyId.None? then Update(s, cfg, id, changes, None, now).0 else s
    case ActUpdateScopes(_, _) => Sweep(s, cfg, now)
    case _ => ServiceStep(s, cfg, ServiceCall(op, now))
  }

  lemma FirstPartIsWhole(s: Store, cfg: Config, op: ServiceOp, now: int)
    ensures FirstPart(s, cfg, op, now).0 == FirstWhole(s, cfg, op, now)
  {
  }

  lemma FirstWholeGood(s: Store, cfg: Config, op: ServiceOp, now: int)
    requires Inv(s, cfg, now) && cfg.maxConcurrentPerOperator >= 1
    requires op.SvcIssue? && op.policyId.None? ==> IsFresh(s, op.request)
    ensures Good(s, FirstWhole(s, cfg, op, now), cfg, now)
  {
    match op
    case SvcIssue(r, policyId, _) =>
      if policyId.None? {
        ServiceIssueNarrows(s, cfg, r, None, None, now);
      } else {
        SweepNarrows(s, cfg, now);
      }
    case SvcUpdate(id, changes, _) =>
      if changes.policyId.None? {
        UpdateNarrows(s, cfg, id, changes, None, now);
      } else {
        NarrowsReflexive(s);
      }
    case ActUpdateScopes(_, _) => SweepNarrows(s, cfg, now);
    case _ => ServiceStepNarrows(s, cfg, ServiceCall(op, now), now);
  }

  lemma FirstPartGood(s: Store, cfg: Config, op: ServiceOp, now: int)
    requires Inv(s, cfg, now) && cfg.maxConcurrentPerOperator >= 1
    requires op.SvcIssue? && op.policyId.None? ==> IsFresh(s, op.request)
    ensures Good(s, FirstPart(s, cfg, op, now).0, cfg, now)
  {
    FirstWholeGood(s, cfg, op, now);
    FirstPartIsWhole(s, cfg, op, now);
    GoodAs(s, FirstWhole(s, cfg, op, now), FirstPart(s, cfg, op, now).0, cfg, now);
  }

  lemma SecondPartGood(s: Store, cfg: Config, w: Waiting, a: Arrival, now: int)
    requires Inv(s, cfg, now) && cfg.maxConcurrentPerOperator >= 1
    requires w.WaitIssue? ==> IsFresh(s, Named(w.request, a))
    ensures Good(s, SecondPart(s, cfg, w, a, now), cfg, now)
  {
    NarrowsReflexive(s);
    match w
    case WaitIssue(r) =>
      if a.policy.Some? {
        IssueNarrows(s, cfg, Merged(Named(r, a), a.policy.value), now);
      }
    case WaitUpdate(id, changes) =>
      if a.policy.Some? {
        GuardGood(s, cfg, id, ResolvePolicy(a.policy.value, changes.allow, changes.deny), now);
      }
    case WaitAction(id, scopes) => GuardGood(s, cfg, id, scopes, now);
  }

  lemma GuardGood(s: Store, cfg: Config, id: string, next: ScopeSet, now: int)
    requires Inv(s, cfg, now) && cfg.maxConcurrentPerOperator >= 1
    ensures Good(s, Guarded(s, cfg, id, next, now).0, cfg, now)
  {
    GuardedKeepsInv(s, cfg, id, next, now);
    GuardedNarrows(s, cfg, id, next, now);
  }

  lemma FlowStepGood(f: Flow, cfg: Config, t: Timed, clock: int)
    requires Inv(f.store, cfg, clock) && SaneMove(f, t, clock) && cfg.maxConcurrentPerOperator >= 1
    ensures Good(f.store, FlowStep(f, cfg, t).store, cfg, t.now)
  {
    DerivedLater(f.store, cfg, clock, t.now);
    NarrowsReflexive(f.store);
    match t.move
    case Begin(op) => FirstPartGood(f.store, cfg, op, t.now);
    case Resume(call, a) =>
      if call in f.waiting {
        SecondPartGood(f.store, cfg, f.waiting[call], a, t.now);
      }
  }

  lemma GoodThen(a: Store, b: Store, c: Store, cfg: Config, middle: int, now: int)
    requires Good(a, b, cfg, middle) && Good(b, c, cfg, now)
    ensures Good(a, c, cfg, now)
  {
    NarrowsTransitive(a, b, c);
  }

  lemma FlowUnfolds(f: Flow, cfg: Config, moves: seq<Timed>, clock: int)
    requires moves != []
    ensures FlowRun(f, cfg, moves) == FlowRun(FlowStep(f, cfg, moves[0]), cfg, moves[1..])
    ensures FlowClock(moves, clock) == FlowClock(moves[1..], moves[0].now)
  {
  }

  /** However calls overlap, what a credential may do at a later time is a
      subset of what it could do at any earlier time. */
  lemma {:induction false} OverlapNeverWidens(f: Flow, cfg: Config, moves: seq<Timed>, clock: int)
    requires Inv(f.store, cfg, clock) && SaneMoves(f, cfg, moves, clock) && cfg.maxConcurrentPerOperator >= 1
    ensures Good(f.store, FlowRun(f, cfg, moves).store, cfg, FlowClock(moves, clock))
    decreases |moves|
  {
    if moves == [] {
      NarrowsReflexive(f.store);
    } else {
      var f1 := FlowStep(f, cfg, moves[0]);
      FlowStepGood(f, cfg, moves[0], clock);
      OverlapNeverWidens(f1, cfg, moves[1..], moves[0].now);
      FlowUnfolds(f, cfg, moves, clock);
      GoodThen(f.store, f1.store, FlowRun(f, cfg, moves).store, cfg, moves[0].now, FlowClock(moves, clock));
    }
  }

  /** The scopes a waiting call is about to ask for. */
  function Asked(w: Waiting, a: Arrival): Option<ScopeSet> {
    match w
    case WaitIssue(_) => None
    case WaitUpdate(_, changes) => if a.policy.None? then None else Some(ResolvePolicy(a.policy.value, changes.allow, changes.deny))
    case WaitAction(_, scopes) => Some(scopes)
  }

  /** The decision is made on the record as it is after the wait, whatever has
      happened to it meanwhile: what would widen it then revokes it. */
  lemma ResumeDecides(s: Store, cfg: Config, w: Waiting, a: Arrival, now: int)
    requires Derived(s, cfg, now) && Asked(w, a).Some? && w.id in s.byId
    ensures var r, r', next := s.byId[w.id], SecondPart(s, cfg, w, a, now).byId[w.id], Asked(w, a).value;
      && (!(Resolved(next) <= r.resolvedScopes) ==> r'.status == Revoked && r'.resolvedScopes == r.resolvedScopes)
      && (Resolved(next) <= r.resolvedScopes && r.status == Active ==> r'.status == Active && r'.effectiveScopes == next)
      && (Resolved(next) <= r.resolvedScopes && r.status != Active ==> r' == r)
  {
    GuardDecides(s, cfg, w.id, Asked(w, a).value, now);
  }
}
