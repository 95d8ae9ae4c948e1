/** The invite listener as a transition system. An invocation runs without
    interruption from one `await` to the next; in between, any other
    invocation, event or timer may run. */
module InviteListener {
  import opened Prelude
  import opened InviteEvents
  import opened InviteShared

  // ---- Invocations --------------------------------------------------------

  /** Where an invocation waits. */
  datatype Phase =
    | Scanning
    | Between
    | Dispatching(event: Event)
    | Accepting(event: Event)
    | Rejecting(event: Event)

  /** A recovery goes through what its scan found; a live invocation serves
      one message. */
  datatype Recovery = Recovery(dmId: string, retryCount: nat, pending: seq<Event>, shouldRetry: bool)

  datatype Task = Task(phase: Phase, recovery: Option<Recovery>)

  datatype State = State(shared: Shared, tasks: map<nat, Task>, nextTask: nat)

  const INITIAL := State(START, map[], 0)

  predicate Busy(t: Task) { t.phase.Dispatching? || t.phase.Accepting? || t.phase.Rejecting? }

  // ---- Steps --------------------------------------------------------------

  /** How a dispatch comes back: no identity applied, one accepted, all
      failed, or an exception. */
  datatype Dispatched = Nothing(shouldRetry: bool) | Success | Failure(shouldRetry: bool) | Threw

  /** What a scan lets through. */
  type Candidate = e: Event | IsCandidate(e) witness Event("", "", true, Opaque, 0, false)

  datatype Action =
    | Arrive(event: Event)
    | Joined(dmId: string)
    | ScanEnds(task: nat, messages: seq<Candidate>, shouldRetry: bool)
    | ScanThrows(task: nat)
    | Proceed(task: nat)
    | Settle(task: nat, result: Dispatched)
    | CallbackEnds(task: nat)
    | Fire(timer: nat)
    | Stop

  function Spawn(s: State, shared: Shared, t: Task): State {
    State(shared, s.tasks[s.nextTask := t], s.nextTask + 1)
  }

  function Drop(s: State, id: nat, shared: Shared): State {
    s.(shared := shared, tasks := s.tasks - {id})
  }

  /** An invocation of the candidate processor returns to its caller. */
  function Returns(s: State, id: nat, shared: Shared, retry: bool): State
    requires id in s.tasks
  {
    match s.tasks[id].recovery
    case None => Drop(s, id, shared)
    case Some(r) =>
      s.(shared := shared, tasks := s.tasks[id := Task(Between, Some(r.(shouldRetry := r.shouldRetry || retry)))])
  }

  /** Actions that cannot happen leave the state alone. */
  function Step(s: State, a: Action): State {
    match a
    case Arrive(e) =>
      if s.shared.subscribed && IsCandidate(e) && Admits(s.shared, e)
      then Spawn(s, Enter(s.shared, e), Task(Dispatching(e), None)) else s
    case Joined(dmId) =>
      if s.shared.subscribed then Spawn(s, s.shared, Task(Scanning, Some(Recovery(dmId, 0, [], false)))) else s
    case ScanEnds(id, messages, retry) =>
      if IsScanning(s, id)
      then s.(tasks := s.tasks[id := Task(Between, Some(s.tasks[id].recovery.value.(pending := messages, shouldRetry := retry)))])
      else s
    case ScanThrows(id) => if IsScanning(s, id) then Drop(s, id, s.shared) else s
    case Proceed(id) => if IsBetween(s, id) then Continue(s, id, s.tasks[id].recovery.value) else s
    case Settle(id, result) => if id in s.tasks && s.tasks[id].phase.Dispatching? then Settled(s, id, s.tasks[id].phase.event, result) else s
    case CallbackEnds(id) =>
      if id in s.tasks && (s.tasks[id].phase.Accepting? || s.tasks[id].phase.Rejecting?)
      then Returns(s, id, Leave(s.shared, s.tasks[id].phase.event), false) else s
    case Fire(t) => if t in s.shared.armed then Ring(s, t) else s
    case Stop => s.(shared := Stopped(s.shared))
  }

  predicate IsScanning(s: State, id: nat) { id in s.tasks && s.tasks[id].phase.Scanning? && s.tasks[id].recovery.Some? }

  predicate IsBetween(s: State, id: nat) { id in s.tasks && s.tasks[id].phase.Between? && s.tasks[id].recovery.Some? }

  /** The next message of a recovery, or its end. */
  function Continue(s: State, id: nat, r: Recovery): State {
    if r.pending == [] then Drop(s, id, ScheduleRetry(s.shared, r.dmId, r.retryCount, r.shouldRetry))
    else
      var e, rest := r.pending[0], r.(pending := r.pending[1..]);
      if Admits(s.shared, e) then s.(shared := Enter(s.shared, e), tasks := s.tasks[id := Task(Dispatching(e), Some(rest))])
      else s.(tasks := s.tasks[id := Task(Between, Some(rest))])
  }

  function Settled(s: State, id: nat, e: Event, result: Dispatched): State
    requires id in s.tasks
  {
    match result
    case Nothing(retry) => Returns(s, id, Leave(s.shared, e), retry)
    case Success => s.(shared := Accept(s.shared, e), tasks := s.tasks[id := s.tasks[id].(phase := Accepting(e))])
    case Failure(retry) =>
      if retry then Returns(s, id, Leave(s.shared, e), true)
      else s.(tasks := s.tasks[id := s.tasks[id].(phase := Rejecting(e))])
    case Threw => Drop(s, id, Leave(s.shared, e))
  }

  function Ring(s: State, t: nat): State
    requires t in s.shared.armed
  {
    match s.shared.armed[t]
    case ForgetKey(_) => s.(shared := Fired(s.shared, t))
    case RetryScan(dmId, n) => Spawn(s, Fired(s.shared, t), Task(Scanning, Some(Recovery(dmId, n + 1, [], false))))
  }

  function Run(s: State, actions: seq<Action>): State
    decreases |actions|
  {
    if actions == [] then s else Run(Step(s, actions[0]), actions[1..])
  }

  // ---- What is in flight --------------------------------------------------

  predicate IsBusy(s: State, id: nat) { id in s.tasks && Busy(s.tasks[id]) }

  function EventOf(s: State, id: nat): Event
    requires IsBusy(s, id)
  {
    s.tasks[id].phase.event
  }

  predicate SharesKey(e: Event, f: Event) { RequestKey(e).Some? && RequestKey(e) == RequestKey(f) }

  /** Two invocations that serve a message serve different requests. */
  ghost predicate Exclusive(s: State) {
    forall i, j :: IsBusy(s, i) && IsBusy(s, j) && i != j ==>
      EventOf(s, i).messageId != EventOf(s, j).messageId && !SharesKey(EventOf(s, i), EventOf(s, j))
  }

  /** What an invocation serves is marked in flight. */
  ghost predicate Marked(s: State) {
    forall i :: IsBusy(s, i) ==> EventOf(s, i).messageId in s.shared.inflightIds && KeysOf(EventOf(s, i)) <= s.shared.inflightKeys
  }

  /** Nothing stays marked in flight without an invocation that serves it. */
  ghost predicate NoLeak(s: State) {
    && (forall m :: m in s.shared.inflightIds ==> exists i :: IsBusy(s, i) && EventOf(s, i).messageId == m)
    && (forall k :: k in s.shared.inflightKeys ==> exists i :: IsBusy(s, i) && RequestKey(EventOf(s, i)) == Some(k))
  }

  predicate IsDispatching(s: State, id: nat) { id in s.tasks && s.tasks[id].phase.Dispatching? }

  /** What is being dispatched has not been served before. */
  ghost predicate Unserved(s: State) {
    forall i :: IsDispatching(s, i) ==>
      s.tasks[i].phase.event.messageId !in s.shared.messageIds && KeysOf(s.tasks[i].phase.event) !! s.shared.keys
  }

  /** Only a recovery scans, and none is a retry beyond the limit. */
  predicate TaskSane(t: Task) {
    if t.recovery.None? then Busy(t) else t.recovery.value.retryCount <= MAX_RETRIES
  }

  ghost predicate TasksSane(s: State) {
    forall i :: i in s.tasks ==> i < s.nextTask && TaskSane(s.tasks[i])
  }

  ghost predicate Inv(s: State) {
    Exclusive(s) && Marked(s) && NoLeak(s) && Unserved(s) && TasksSane(s) && SharedInv(s.shared)
  }
}
