/** What whole runs of the invite listener promise, whatever the order in
    which events, invocations and timers take turns. */
module InviteLaws {
  import opened Prelude
  import opened InviteEvents
  import opened InviteShared
  import opened InviteListener
  import opened InviteRuns

  /** Two armed retries for one conversation. */
  predicate AreRetriesOfOne(s: Shared, t: nat, u: nat) {
    && t in s.armed && u in s.armed && s.armed[t].RetryScan? && s.armed[u].RetryScan?
    && s.armed[t].dmId == s.armed[u].dmId
  }

  /** In every reachable state: one dispatch at most is in flight for a message
      and for a request, nothing is marked in flight without being served, and
      until the listener is stopped the processed keys are those with a timer. */
  lemma EveryInterleaving(actions: seq<Action>)
    ensures var s := Run(INITIAL, actions);
      && (forall i, j :: IsDispatching(s, i) && IsDispatching(s, j) && i != j ==>
            && s.tasks[i].phase.event.messageId != s.tasks[j].phase.event.messageId
            && !SharesKey(s.tasks[i].phase.event, s.tasks[j].phase.event))
      && (s.tasks == map[] ==> s.shared.inflightIds == {} && s.shared.inflightKeys == {})
      && (s.shared.subscribed ==> s.shared.keys == s.shared.keyTimers.Keys)
      && (forall t, u :: AreRetriesOfOne(s.shared, t, u) ==> t == u)
  {
    var s := Run(INITIAL, actions);
    InitialInv();
    RunKeepsInv(INITIAL, actions);
    forall i, j | IsDispatching(s, i) && IsDispatching(s, j) && i != j
      ensures s.tasks[i].phase.event.messageId != s.tasks[j].phase.event.messageId
      ensures !SharesKey(s.tasks[i].phase.event, s.tasks[j].phase.event)
    {
      assert IsBusy(s, i) && IsBusy(s, j);
    }
    forall t, u | AreRetriesOfOne(s.shared, t, u)
      ensures t == u
    {
      assert Registered(s.shared, t) && Registered(s.shared, u);
    }
  }

  // ---- The record of a run ------------------------------------------------

  /** A dispatch that succeeded, a key that was forgotten, a scan that began. */
  datatype Entry =
    | Won(messageId: string, key: Option<string>)
    | Forgot(request: string)
    | Scan(dmId: string, retryCount: nat)

  function StepLog(s: State, a: Action): seq<Entry> {
    match a
    case Settle(id, Success) =>
      if IsDispatching(s, id) then [Won(s.tasks[id].phase.event.messageId, RequestKey(s.tasks[id].phase.event))] else []
    case Joined(dmId) => if s.shared.subscribed then [Scan(dmId, 0)] else []
    case Fire(t) =>
      if t !in s.shared.armed then []
      else (match s.shared.armed[t] case ForgetKey(k) => [Forgot(k)] case RetryScan(dmId, n) => [Scan(dmId, n + 1)])
    case _ => []
  }

  function Log(s: State, actions: seq<Action>): seq<Entry>
    decreases |actions|
  {
    if actions == [] then [] else StepLog(s, actions[0]) + Log(Step(s, actions[0]), actions[1..])
  }

  // ---- One success per message, one per request ----------------------------

  function MarkedBy(e: Entry, ids: set<string>): set<string> {
    if e.Won? then ids + {e.messageId} else ids
  }

  function RememberedBy(e: Entry, keys: set<string>): set<string> {
    match e
    case Won(_, Some(k)) => keys + {k}
    case Forgot(k) => keys - {k}
    case _ => keys
  }

  /** Starting with these messages and keys processed, no success repeats a
      processed message or a remembered key. */
  predicate Fair(log: seq<Entry>, ids: set<string>, keys: set<string>) {
    log == [] || (FairEntry(log[0], ids, keys) && Fair(log[1..], MarkedBy(log[0], ids), RememberedBy(log[0], keys)))
  }

  predicate FairEntry(e: Entry, ids: set<string>, keys: set<string>) {
    e.Won? ==> e.messageId !in ids && (e.key.Some? ==> e.key.value !in keys)
  }

  lemma StepFair(s: State, a: Action)
    requires Inv(s)
    ensures var s', log := Step(s, a), StepLog(s, a);
      if log == [] then s'.shared.messageIds == s.shared.messageIds && s'.shared.keys == s.shared.keys
      else
        && |log| == 1 && FairEntry(log[0], s.shared.messageIds, s.shared.keys)
        && s'.shared.messageIds == MarkedBy(log[0], s.shared.messageIds)
        && s'.shared.keys == RememberedBy(log[0], s.shared.keys)
  {
  }

  lemma {:induction false} RunFair(s: State, actions: seq<Action>)
    requires Inv(s)
    ensures Fair(Log(s, actions), s.shared.messageIds, s.shared.keys)
    decreases |actions|
  {
    if actions != [] {
      var s1, rest, step := Step(s, actions[0]), actions[1..], StepLog(s, actions[0]);
      StepFair(s, actions[0]);
      StepKeepsInv(s, actions[0]);
      RunFair(s1, rest);
      if step == [] {
        assert Log(s, actions) == Log(s1, rest);
      } else {
        assert Log(s, actions)[1..] == Log(s1, rest);
      }
    }
  }

  predicate IsWin(log: seq<Entry>, i: nat) { i < |log| && log[i].Won? }

  lemma {:induction false} WonNotMarked(log: seq<Entry>, ids: set<string>, keys: set<string>, j: nat)
    requires Fair(log, ids, keys) && IsWin(log, j)
    ensures log[j].messageId !in ids
  {
    if j > 0 {
      WonNotMarked(log[1..], MarkedBy(log[0], ids), RememberedBy(log[0], keys), j - 1);
    }
  }

  lemma {:induction false} WonOnce(log: seq<Entry>, ids: set<string>, keys: set<string>, i: nat, j: nat)
    requires Fair(log, ids, keys) && i < j && IsWin(log, i) && IsWin(log, j)
    ensures log[i].messageId != log[j].messageId
  {
    var ids1, keys1 := MarkedBy(log[0], ids), RememberedBy(log[0], keys);
    if i == 0 {
      WonNotMarked(log[1..], ids1, keys1, j - 1);
    } else {
      WonOnce(log[1..], ids1, keys1, i - 1, j - 1);
    }
  }

  /** A remembered key is won again only after it was forgotten. */
  lemma {:induction false} WonAfterForgotten(log: seq<Entry>, ids: set<string>, keys: set<string>, k: string, j: nat) returns (m: nat)
    requires Fair(log, ids, keys) && IsWin(log, j) && log[j].key == Some(k) && k in keys
    ensures m < j && log[m] == Forgot(k)
  {
    if log[0] == Forgot(k) {
      m := 0;
    } else {
      m := WonAfterForgotten(log[1..], MarkedBy(log[0], ids), RememberedBy(log[0], keys), k, j - 1);
      m := m + 1;
    }
  }

  lemma {:induction false} ForgottenBetween(log: seq<Entry>, ids: set<string>, keys: set<string>, k: string, i: nat, j: nat) returns (m: nat)
    requires Fair(log, ids, keys) && i < j && IsWin(log, i) && IsWin(log, j) && log[i].key == log[j].key == Some(k)
    ensures i < m < j && log[m] == Forgot(k)
  {
    var ids1, keys1 := MarkedBy(log[0], ids), RememberedBy(log[0], keys);
    if i == 0 {
      m := WonAfterForgotten(log[1..], ids1, keys1, k, j - 1);
    } else {
      m := ForgottenBetween(log[1..], ids1, keys1, k, i - 1, j - 1);
    }
    m := m + 1;
  }

  /** No message is served twice in the whole run. */
  lemma MessageServedOnce(s: State, actions: seq<Action>, i: nat, j: nat)
    requires Inv(s) && i < j && IsWin(Log(s, actions), i) && IsWin(Log(s, actions), j)
    ensures Log(s, actions)[i].messageId != Log(s, actions)[j].messageId
  {
    RunFair(s, actions);
    WonOnce(Log(s, actions), s.shared.messageIds, s.shared.keys, i, j);
  }

  /** Between two successes for one request lies the moment its key was
      forgotten. */
  lemma RequestServedOnce(s: State, actions: seq<Action>, k: string, i: nat, j: nat)
    requires Inv(s) && i < j && IsWin(Log(s, actions), i) && IsWin(Log(s, actions), j)
    requires Log(s, actions)[i].key == Log(s, actions)[j].key == Some(k)
    ensures exists m :: i < m < j && Log(s, actions)[m] == Forgot(k)
  {
    RunFair(s, actions);
    var m := ForgottenBetween(Log(s, actions), s.shared.messageIds, s.shared.keys, k, i, j);
  }

  // ---- At most three retries ----------------------------------------------

  /** Recoveries of one conversation in round `n`, and retries armed by such. */
  function TasksAt(s: State, d: string, n: nat): set<nat> {
    set i | i in s.tasks && s.tasks[i].recovery.Some? && IsRound(s.tasks[i].recovery.value, d, n)
  }

  predicate IsRound(r: Recovery, d: string, n: nat) { r.dmId == d && r.retryCount == n }

  function AlarmsAt(s: State, d: string, n: nat): set<nat> {
    set t | t in s.shared.armed && s.shared.armed[t] == RetryScan(d, n)
  }

  function Open(s: State, d: string, n: nat): nat { |TasksAt(s, d, n)| + |AlarmsAt(s, d, n)| }

  function Scans(log: seq<Entry>, d: string, n: nat): nat {
    if log == [] then 0 else (if log[0] == Scan(d, n) then 1 else 0) + Scans(log[1..], d, n)
  }

  lemma {:induction false} ScansConcat(a: seq<Entry>, b: seq<Entry>, d: string, n: nat)
    ensures Scans(a + b, d, n) == Scans(a, d, n) + Scans(b, d, n)
  {
    if a == [] {
      assert a + b == b;
    } else {
      assert (a + b)[1..] == a[1..] + b;
      ScansConcat(a[1..], b, d, n);
    }
  }

  lemma SubsetSmaller<T>(a: set<T>, b: set<T>)
    requires a <= b
    ensures |a| <= |b|
  {
    assert b == a + (b - a);
  }

  lemma GrowsByOne(a: set<nat>, b: set<nat>, x: nat)
    requires b <= a + {x}
    ensures |b| <= |a| + 1
  {
    SubsetSmaller(b, a + {x});
    assert |a + {x}| <= |a| + 1;
  }

  lemma ShrinksByOne(a: set<nat>, b: set<nat>, x: nat)
    requires x in a && b <= a - {x}
    ensures |b| + 1 <= |a|
  {
    SubsetSmaller(b, a - {x});
  }

  /** A retry of round n + 1 uses up an alarm of round n, and an alarm of round
      n a recovery of that round, all of the same conversation. */
  lemma StepOpen(s: State, a: Action, d: string, n: nat)
    requires Inv(s)
    ensures Open(Step(s, a), d, n) + Scans(StepLog(s, a), d, n + 1) <= Open(s, d, n) + Scans(StepLog(s, a), d, n)
  {
    match a
    case Joined(_) => JoinOpens(s, a, d, n);
    case Fire(t) =>
      if t in s.shared.armed {
        FireOpens(s, t, d, n);
      }
    case Proceed(id) => ProceedOpens(s, id, d, n);
    case Settle(id, Success) => AcceptOpens(s, id, d, n);
    case _ => OtherOpens(s, a, d, n);
  }

  lemma OtherOpens(s: State, a: Action, d: string, n: nat)
    requires !a.Joined? && !a.Fire? && !a.Proceed? && (a.Settle? ==> !a.result.Success?)
    ensures StepLog(s, a) == [] && Open(Step(s, a), d, n) <= Open(s, d, n)
  {
    var s' := Step(s, a);
    assert TasksAt(s', d, n) <= TasksAt(s, d, n);
    assert AlarmsAt(s', d, n) <= AlarmsAt(s, d, n);
    SubsetSmaller(TasksAt(s', d, n), TasksAt(s, d, n));
    SubsetSmaller(AlarmsAt(s', d, n), AlarmsAt(s, d, n));
  }

  lemma JoinOpens(s: State, a: Action, d: string, n: nat)
    requires TasksSane(s) && a.Joined?
    ensures Open(Step(s, a), d, n) + Scans(StepLog(s, a), d, n + 1) <= Open(s, d, n) + Scans(StepLog(s, a), d, n)
  {
    var s' := Step(s, a);
    if s.shared.subscribed {
      assert AlarmsAt(s', d, n) == AlarmsAt(s, d, n);
      if a.dmId == d && n == 0 {
        GrowsByOne(TasksAt(s, d, n), TasksAt(s', d, n), s.nextTask);
      } else {
        SubsetSmaller(TasksAt(s', d, n), TasksAt(s, d, n));
      }
      assert StepLog(s, a) == [Scan(a.dmId, 0)];
    }
  }

  lemma FireOpens(s: State, t: nat, d: string, n: nat)
    requires Inv(s) && t in s.shared.armed
    ensures Open(Step(s, Fire(t)), d, n) + Scans(StepLog(s, Fire(t)), d, n + 1)
         <= Open(s, d, n) + Scans(StepLog(s, Fire(t)), d, n)
  {
    var s' := Step(s, Fire(t));
    match s.shared.armed[t]
    case ForgetKey(_) =>
      SubsetSmaller(AlarmsAt(s', d, n), AlarmsAt(s, d, n));
      assert TasksAt(s', d, n) == TasksAt(s, d, n);
    case RetryScan(dmId, m) =>
      RetryOpens(s, t, d, n);
      assert StepLog(s, Fire(t)) == [Scan(dmId, m + 1)];
  }

  lemma RetryOpens(s: State, t: nat, d: string, n: nat)
    requires TasksSane(s) && t in s.shared.armed && s.shared.armed[t].RetryScan?
    ensures var alarm := s.shared.armed[t];
      Open(Step(s, Fire(t)), d, n) + (if alarm == RetryScan(d, n) then 1 else 0)
      <= Open(s, d, n) + (if alarm.dmId == d && alarm.retryCount + 1 == n then 1 else 0)
  {
    var s', alarm := Step(s, Fire(t)), s.shared.armed[t];
    if alarm == RetryScan(d, n) {
      ShrinksByOne(AlarmsAt(s, d, n), AlarmsAt(s', d, n), t);
    } else {
      SubsetSmaller(AlarmsAt(s', d, n), AlarmsAt(s, d, n));
    }
    if alarm.dmId == d && alarm.retryCount + 1 == n {
      GrowsByOne(TasksAt(s, d, n), TasksAt(s', d, n), s.nextTask);
    } else {
      SubsetSmaller(TasksAt(s', d, n), TasksAt(s, d, n));
    }
  }

  lemma FinishOpens(s: State, id: nat, d: string, n: nat)
    requires IsBetween(s, id) && s.tasks[id].recovery.value.pending == []
    ensures Open(Step(s, Proceed(id)), d, n) <= Open(s, d, n)
  {
    var s' := Step(s, Proceed(id));
    if IsRound(s.tasks[id].recovery.value, d, n) {
      ShrinksByOne(TasksAt(s, d, n), TasksAt(s', d, n), id);
      GrowsByOne(AlarmsAt(s, d, n), AlarmsAt(s', d, n), s.shared.nextTimer);
    } else {
      SubsetSmaller(TasksAt(s', d, n), TasksAt(s, d, n));
      SubsetSmaller(AlarmsAt(s', d, n), AlarmsAt(s, d, n));
    }
  }

  lemma ProceedOpens(s: State, id: nat, d: string, n: nat)
    ensures Open(Step(s, Proceed(id)), d, n) <= Open(s, d, n)
  {
    var s' := Step(s, Proceed(id));
    if IsBetween(s, id) && s.tasks[id].recovery.value.pending == [] {
      FinishOpens(s, id, d, n);
    } else {
      assert TasksAt(s', d, n) == TasksAt(s, d, n) && AlarmsAt(s', d, n) == AlarmsAt(s, d, n);
    }
  }

  lemma AcceptOpens(s: State, id: nat, d: string, n: nat)
    requires Inv(s)
    ensures Open(Step(s, Settle(id, Success)), d, n) <= Open(s, d, n)
    ensures Scans(StepLog(s, Settle(id, Success)), d, n + 1) == 0
  {
    var s' := Step(s, Settle(id, Success));
    SubsetSmaller(TasksAt(s', d, n), TasksAt(s, d, n));
    assert AlarmsAt(s', d, n) <= AlarmsAt(s, d, n);
    SubsetSmaller(AlarmsAt(s', d, n), AlarmsAt(s, d, n));
  }

  lemma {:induction false} RoundsBounded(s: State, actions: seq<Action>, d: string, n: nat)
    requires Inv(s)
    ensures Open(Run(s, actions), d, n) + Scans(Log(s, actions), d, n + 1) <= Open(s, d, n) + Scans(Log(s, actions), d, n)
    decreases |actions|
  {
    if actions != [] {
      var s1, rest, step := Step(s, actions[0]), actions[1..], StepLog(s, actions[0]);
      StepOpen(s, actions[0], d, n);
      StepKeepsInv(s, actions[0]);
      RoundsBounded(s1, rest, d, n);
      ScansConcat(step, Log(s1, rest), d, n);
      ScansConcat(step, Log(s1, rest), d, n + 1);
    }
  }

  /** From rest, a conversation is scanned in each round at most as often as it
      was joined. */
  lemma {:induction false} RetriesBounded(s: State, actions: seq<Action>, d: string, n: nat)
    requires Inv(s) && s.tasks == map[] && s.shared.armed == map[]
    ensures Scans(Log(s, actions), d, n) <= Scans(Log(s, actions), d, 0)
  {
    if n > 0 {
      RoundsBounded(s, actions, d, n - 1);
      RetriesBounded(s, actions, d, n - 1);
    }
  }

  /** No scan is ever a fourth retry. */
  lemma {:induction false} NoFourthRetry(s: State, actions: seq<Action>, d: string, n: nat)
    requires Inv(s) && n > 3
    ensures Scans(Log(s, actions), d, n) == 0
    decreases |actions|
  {
    if actions != [] {
      var s1, rest, step := Step(s, actions[0]), actions[1..], StepLog(s, actions[0]);
      StepKeepsInv(s, actions[0]);
      NoFourthRetry(s1, rest, d, n);
      StepRound(s, actions[0]);
      ScansConcat(step, Log(s1, rest), d, n);
    }
  }

  lemma StepRound(s: State, a: Action)
    requires Inv(s)
    ensures |StepLog(s, a)| <= 1
    ensures |StepLog(s, a)| == 1 && StepLog(s, a)[0].Scan? ==> StepLog(s, a)[0].retryCount <= MAX_RETRIES
  {
    if a.Fire? && a.timer in s.shared.armed {
      assert Registered(s.shared, a.timer);
    }
  }

  // ---- A wanted retry comes about -----------------------------------------

  /** Past its scan, a recovery of this conversation and round wants a retry. */
  predicate Wants(s: State, id: nat, dmId: string, round: nat) {
    && id in s.tasks && !s.tasks[id].phase.Scanning? && s.tasks[id].recovery.Some?
    && s.tasks[id].recovery.value.shouldRetry
    && s.tasks[id].recovery.value.dmId == dmId && s.tasks[id].recovery.value.retryCount == round
  }

  /** The wish arises from a scan that failed for now, and from a dispatch that
      may succeed later. */
  lemma WishArises(s: State, a: Action, id: nat)
    requires TasksSane(s) && id in s.tasks && s.tasks[id].recovery.Some?
    requires (IsScanning(s, id) && a.ScanEnds? && a.task == id && a.shouldRetry)
      || (IsDispatching(s, id) && a in {Settle(id, Nothing(true)), Settle(id, Failure(true))})
    ensures Wants(Step(s, a), id, s.tasks[id].recovery.value.dmId, s.tasks[id].recovery.value.retryCount)
  {
  }

  /** The wish lasts until the invocation ends, and then a retry is armed. */
  lemma StepWants(s: State, a: Action, id: nat, dmId: string, round: nat)
    requires TasksSane(s) && Wants(s, id, dmId, round) && round < MAX_RETRIES && a != Settle(id, Threw)
    ensures Wants(Step(s, a), id, dmId, round) || (id !in Step(s, a).tasks && dmId in Step(s, a).shared.retryTimers)
  {
  }

  /** The invocation ends with action `n`, and a retry for `dmId` is armed then. */
  ghost predicate EndsArmed(s: State, actions: seq<Action>, id: nat, dmId: string, n: nat)
    requires n < |actions|
  {
    && id in Run(s, actions[..n]).tasks
    && id !in Run(s, actions[..n + 1]).tasks
    && dmId in Run(s, actions[..n + 1]).shared.retryTimers
  }

  /** A recovery below the limit that wants a retry does not come to its end,
      other than by an exception, without a retry for its conversation being
      armed at that very moment. */
  lemma {:induction false} WantedRetryArmed(s: State, actions: seq<Action>, id: nat, dmId: string, round: nat) returns (n: nat)
    requires Inv(s) && Wants(s, id, dmId, round) && round < 3
    requires Settle(id, Threw) !in actions && id !in Run(s, actions).tasks
    ensures n < |actions| && EndsArmed(s, actions, id, dmId, n)
    decreases |actions|
  {
    assert actions != [];
    var s1, rest := Step(s, actions[0]), actions[1..];
    StepWants(s, actions[0], id, dmId, round);
    StepKeepsInv(s, actions[0]);
    if id !in s1.tasks {
      n := 0;
      assert Run(s, actions[..0]) == s && Run(s, actions[..1]) == Run(s1, actions[..1][1..]) == s1;
    } else {
      n := WantedRetryArmed(s1, rest, id, dmId, round);
      RunTail(s, actions, n);
      RunTail(s, actions, n + 1);
      n := n + 1;
    }
  }

  lemma RunTail(s: State, actions: seq<Action>, n: nat)
    requires n < |actions|
    ensures Run(s, actions[..n + 1]) == Run(Step(s, actions[0]), actions[1..][..n])
  {
    assert actions[..n + 1][1..] == actions[1..][..n];
  }

  // ---- Progress -----------------------------------------------------------

  /** An action that takes invocation `id` further, without an exception. */
  predicate Advances(a: Action, id: nat) {
    match a
    case ScanEnds(i, _, _) => i == id
    case Proceed(i) => i == id
    case Settle(i, result) => i == id && !result.Threw?
    case CallbackEnds(i) => i == id
    case _ => false
  }

  /** What an invocation waits for can come. */
  function Next(t: Task, id: nat): Action {
    match t.phase
    case Scanning => ScanEnds(id, [], false)
    case Between => Proceed(id)
    case Dispatching(_) => Settle(id, Nothing(false))
    case _ => CallbackEnds(id)
  }

  /** Whatever an invocation waits for, it goes on when that comes, even if no
      exception is thrown. */
  lemma NeverStuck(s: State, id: nat) returns (a: Action)
    requires Inv(s) && id in s.tasks
    ensures Advances(a, id)
    ensures id in Step(s, a).tasks ==> Step(s, a).tasks[id] != s.tasks[id]
  {
    assert TaskSane(s.tasks[id]);
    a := Next(s.tasks[id], id);
    if s.tasks[id].phase.Between? && s.tasks[id].recovery.value.pending != [] {
      var pending := s.tasks[id].recovery.value.pending;
      assert pending[1..] != pending;
    }
  }

  function Left(t: Task): nat { if t.recovery.Some? then |t.recovery.value.pending| else 0 }

  /** What one step of `Next` leaves to be done. */
  lemma NextNearer(s: State, id: nat)
    requires Inv(s) && id in s.tasks
    ensures var t, s' := s.tasks[id], Step(s, Next(s.tasks[id], id));
      id in s'.tasks ==>
        || Left(s'.tasks[id]) < Left(t)
        || (Left(s'.tasks[id]) == Left(t) && s'.tasks[id].phase.Between? && !t.phase.Between?)
  {
    assert TaskSane(s.tasks[id]);
  }

  /** Every invocation can come to its end without an exception and without
      anything else happening. */
  lemma {:induction false} CanFinish(s: State, id: nat) returns (actions: seq<Action>)
    requires Inv(s) && id in s.tasks
    ensures forall a :: a in actions ==> Advances(a, id)
    ensures id !in Run(s, actions).tasks
    decreases Left(s.tasks[id]), !s.tasks[id].phase.Between?
  {
    var a := Next(s.tasks[id], id);
    var s1 := Step(s, a);
    NextNearer(s, id);
    StepKeepsInv(s, a);
    if id !in s1.tasks {
      actions := [a];
      assert Run(s1, []) == s1;
    } else {
      var rest := CanFinish(s1, id);
      actions := [a] + rest;
      assert actions[1..] == rest;
    }
  }
}
