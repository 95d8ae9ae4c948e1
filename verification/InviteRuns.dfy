/** What every interleaving of the invite listener keeps. */
module InviteRuns {
  import opened Prelude
  import opened InviteEvents
  import opened InviteShared
  import opened InviteListener

  // ---- Kinds of change ----------------------------------------------------

  /** All invocations but `id` serve what they served. */
  ghost predicate OthersServe(s: State, s': State, id: nat) {
    forall i :: i != id ==> IsBusy(s, i) == IsBusy(s', i) && (IsBusy(s, i) ==> EventOf(s, i) == EventOf(s', i))
  }

  predicate SameFlight(a: Shared, b: Shared) { a.inflightIds == b.inflightIds && a.inflightKeys == b.inflightKeys }

  ghost predicate FlightInv(s: State) { Exclusive(s) && Marked(s) && NoLeak(s) }

  /** `id` goes on serving what it served, or goes on serving nothing. */
  lemma FlightKept(s: State, s': State, id: nat)
    requires FlightInv(s) && OthersServe(s, s', id) && SameFlight(s.shared, s'.shared)
    requires IsBusy(s, id) == IsBusy(s', id) && (IsBusy(s, id) ==> EventOf(s, id) == EventOf(s', id))
    ensures FlightInv(s')
  {
    assert forall i :: IsBusy(s, i) == IsBusy(s', i) && (IsBusy(s, i) ==> EventOf(s, i) == EventOf(s', i));
  }

  lemma FlightEntered(s: State, s': State, id: nat, e: Event)
    requires FlightInv(s) && OthersServe(s, s', id) && SameFlight(Enter(s.shared, e), s'.shared)
    requires !IsBusy(s, id) && Admits(s.shared, e)
    requires IsBusy(s', id) && EventOf(s', id) == e
    ensures FlightInv(s')
  {
    forall m | m in s'.shared.inflightIds
      ensures exists i :: IsBusy(s', i) && EventOf(s', i).messageId == m
    {
      if m != e.messageId {
        var i :| IsBusy(s, i) && EventOf(s, i).messageId == m;
        assert IsBusy(s', i);
      }
    }
    forall k | k in s'.shared.inflightKeys
      ensures exists i :: IsBusy(s', i) && RequestKey(EventOf(s', i)) == Some(k)
    {
      if k !in KeysOf(e) {
        var i :| IsBusy(s, i) && RequestKey(EventOf(s, i)) == Some(k);
        assert IsBusy(s', i);
      }
    }
  }

  lemma FlightLeft(s: State, s': State, id: nat)
    requires FlightInv(s) && OthersServe(s, s', id)
    requires IsBusy(s, id) && !IsBusy(s', id) && SameFlight(Leave(s.shared, EventOf(s, id)), s'.shared)
    ensures FlightInv(s')
  {
    var e := EventOf(s, id);
    forall m | m in s'.shared.inflightIds
      ensures exists i :: IsBusy(s', i) && EventOf(s', i).messageId == m
    {
      var i :| IsBusy(s, i) && EventOf(s, i).messageId == m;
      assert IsBusy(s', i);
    }
    forall k | k in s'.shared.inflightKeys
      ensures exists i :: IsBusy(s', i) && RequestKey(EventOf(s', i)) == Some(k)
    {
      var i :| IsBusy(s, i) && RequestKey(EventOf(s, i)) == Some(k);
      assert IsBusy(s', i);
    }
  }

  ghost predicate RestInv(s: State) { Unserved(s) && TasksSane(s) && SharedInv(s.shared) }

  // ---- Each action --------------------------------------------------------

  lemma ArriveKeeps(s: State, e: Event)
    requires Inv(s)
    ensures Inv(Step(s, Arrive(e)))
  {
    var s' := Step(s, Arrive(e));
    if s' != s {
      FlightEntered(s, s', s.nextTask, e);
      assert RestInv(s');
    }
  }

  lemma SpawnKeeps(s: State, shared: Shared, t: Task)
    requires FlightInv(s) && TasksSane(s) && !Busy(t) && SameFlight(s.shared, shared)
    ensures FlightInv(Spawn(s, shared, t))
  {
    FlightKept(s, Spawn(s, shared, t), s.nextTask);
  }

  lemma JoinedKeeps(s: State, dmId: string)
    requires Inv(s)
    ensures Inv(Step(s, Joined(dmId)))
  {
    if s.shared.subscribed {
      SpawnKeeps(s, s.shared, Task(Scanning, Some(Recovery(dmId, 0, [], false))));
      assert RestInv(Step(s, Joined(dmId)));
    }
  }

  lemma ScanKeeps(s: State, id: nat, messages: seq<Candidate>, retry: bool)
    requires Inv(s)
    ensures Inv(Step(s, ScanEnds(id, messages, retry))) && Inv(Step(s, ScanThrows(id)))
  {
    if IsScanning(s, id) {
      FlightKept(s, Step(s, ScanEnds(id, messages, retry)), id);
      FlightKept(s, Step(s, ScanThrows(id)), id);
      assert RestInv(Step(s, ScanEnds(id, messages, retry)));
      assert RestInv(Step(s, ScanThrows(id)));
    }
  }

  lemma EndKeeps(s: State, id: nat)
    requires Inv(s) && IsBetween(s, id) && s.tasks[id].recovery.value.pending == []
    ensures Inv(Step(s, Proceed(id)))
  {
    var s', r := Step(s, Proceed(id)), s.tasks[id].recovery.value;
    ScheduleRetryKeeps(s.shared, r.dmId, r.retryCount, r.shouldRetry);
    FlightKept(s, s', id);
    assert RestInv(s');
  }

  lemma AdmitKeeps(s: State, id: nat, e: Event)
    requires Inv(s) && IsBetween(s, id) && s.tasks[id].recovery.value.pending != []
    requires e == s.tasks[id].recovery.value.pending[0] && Admits(s.shared, e)
    ensures Inv(Step(s, Proceed(id)))
  {
    var s' := Step(s, Proceed(id));
    FlightEntered(s, s', id, e);
    assert RestInv(s');
  }

  lemma ContinueKeeps(s: State, id: nat)
    requires Inv(s)
    ensures Inv(Step(s, Proceed(id)))
  {
    if IsBetween(s, id) {
      var s', pending := Step(s, Proceed(id)), s.tasks[id].recovery.value.pending;
      if pending == [] {
        EndKeeps(s, id);
      } else if Admits(s.shared, pending[0]) {
        AdmitKeeps(s, id, pending[0]);
      } else {
        FlightKept(s, s', id);
        assert RestInv(s');
      }
    }
  }

  /** The `finally` block, whatever the invocation does next. */
  lemma LeaveKeeps(s: State, id: nat, retry: bool)
    requires Inv(s) && IsBusy(s, id)
    ensures var left := Leave(s.shared, EventOf(s, id));
      Inv(Returns(s, id, left, retry)) && Inv(Drop(s, id, left))
  {
    var left := Leave(s.shared, EventOf(s, id));
    var s1, s2 := Returns(s, id, left, retry), Drop(s, id, left);
    FlightLeft(s, s1, id);
    FlightLeft(s, s2, id);
    assert RestInv(s1) && RestInv(s2);
  }

  lemma AcceptedKeeps(s: State, id: nat)
    requires Inv(s) && IsDispatching(s, id)
    ensures Inv(Step(s, Settle(id, Success)))
  {
    var s' := Step(s, Settle(id, Success));
    var e := s.tasks[id].phase.event;
    AcceptKeeps(s.shared, e);
    FlightKept(s, s', id);
    forall i | IsDispatching(s', i)
      ensures s'.tasks[i].phase.event.messageId !in s'.shared.messageIds && KeysOf(s'.tasks[i].phase.event) !! s'.shared.keys
    {
      assert IsDispatching(s, i) && IsBusy(s, i) && IsBusy(s, id) && i != id;
    }
    assert RestInv(s');
  }

  lemma RejectedKeeps(s: State, id: nat)
    requires Inv(s) && IsDispatching(s, id)
    ensures Inv(Step(s, Settle(id, Failure(false))))
  {
    var s' := Step(s, Settle(id, Failure(false)));
    FlightKept(s, s', id);
    assert RestInv(s');
  }

  lemma SettleKeeps(s: State, id: nat, result: Dispatched)
    requires Inv(s)
    ensures Inv(Step(s, Settle(id, result)))
  {
    if IsDispatching(s, id) {
      match result
      case Success => AcceptedKeeps(s, id);
      case Failure(false) => RejectedKeeps(s, id);
      case Nothing(retry) => LeaveKeeps(s, id, retry);
      case _ => LeaveKeeps(s, id, true);
    }
  }

  lemma CallbackKeeps(s: State, id: nat)
    requires Inv(s)
    ensures Inv(Step(s, CallbackEnds(id)))
  {
    if IsBusy(s, id) && !IsDispatching(s, id) {
      LeaveKeeps(s, id, false);
    }
  }

  lemma RetryKeeps(s: State, t: nat)
    requires Inv(s) && t in s.shared.armed && s.shared.armed[t].RetryScan?
    ensures Inv(Step(s, Fire(t)))
  {
    var s', a := Step(s, Fire(t)), s.shared.armed[t];
    FiredKeeps(s.shared, t);
    assert Registered(s.shared, t);
    SpawnKeeps(s, s'.shared, Task(Scanning, Some(Recovery(a.dmId, a.retryCount + 1, [], false))));
    assert RestInv(s');
  }

  lemma FireKeeps(s: State, t: nat)
    requires Inv(s)
    ensures Inv(Step(s, Fire(t)))
  {
    if t in s.shared.armed {
      if s.shared.armed[t].RetryScan? {
        RetryKeeps(s, t);
      } else {
        var s' := Step(s, Fire(t));
        FiredKeeps(s.shared, t);
        FlightKept(s, s', s.nextTask);
        assert RestInv(s');
      }
    }
  }

  lemma StopKeeps(s: State)
    requires Inv(s)
    ensures Inv(Step(s, Stop))
  {
    StoppedKeeps(s.shared);
    FlightKept(s, Step(s, Stop), s.nextTask);
    assert RestInv(Step(s, Stop));
  }

  lemma StepKeepsInv(s: State, a: Action)
    requires Inv(s)
    ensures Inv(Step(s, a))
  {
    match a
    case Arrive(e) => ArriveKeeps(s, e);
    case Joined(dmId) => JoinedKeeps(s, dmId);
    case ScanEnds(id, messages, retry) => ScanKeeps(s, id, messages, retry);
    case ScanThrows(id) => ScanKeeps(s, id, [], false);
    case Proceed(id) => ContinueKeeps(s, id);
    case Settle(id, result) => SettleKeeps(s, id, result);
    case CallbackEnds(id) => CallbackKeeps(s, id);
    case Fire(t) => FireKeeps(s, t);
    case Stop => StopKeeps(s);
  }

  lemma InitialInv()
    ensures Inv(INITIAL)
  {
  }

  /** In every reachable state: at most one dispatch in flight per message and
      per request, in-flight marks with an owner, keys with their timers. */
  lemma {:induction false} RunKeepsInv(s: State, actions: seq<Action>)
    requires Inv(s)
    ensures Inv(Run(s, actions))
    decreases |actions|
  {
    if actions != [] {
      StepKeepsInv(s, actions[0]);
      RunKeepsInv(Step(s, actions[0]), actions[1..]);
    }
  }
}
