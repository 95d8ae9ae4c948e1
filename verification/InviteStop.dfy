/** What stopping the listener achieves. It clears all timers, but what is
    under way goes on, and may arm new ones. */
module InviteStop {
  import opened InviteEvents
  import opened InviteShared
  import opened InviteListener
  import opened InviteRuns
  import opened InviteLaws

  // ---- Nothing under way --------------------------------------------------

  predicate Unmoved(s: State, actions: seq<Action>) { Run(s, actions) == s }

  /** Stopping leaves nothing at all to happen exactly when no invocation is
      under way. */
  lemma StopIsFinalIff(s: State)
    requires Inv(s)
    ensures (forall actions :: Unmoved(Step(s, Stop), actions)) <==> s.tasks == map[]
  {
    var stopped := Step(s, Stop);
    StopKeeps(s);
    StoppedKeeps(s.shared);
    if s.tasks == map[] {
      forall actions
        ensures Unmoved(stopped, actions)
      {
        StoppedForGood(stopped, actions);
      }
    } else {
      var id :| id in s.tasks;
      var a := NeverStuck(stopped, id);
      assert Step(stopped, a) != stopped;
      assert Run(stopped, [a]) == Run(Step(stopped, a), []) == Step(stopped, a);
      assert !Unmoved(stopped, [a]);
    }
  }

  lemma {:induction false} StoppedForGood(s: State, actions: seq<Action>)
    requires s.tasks == map[] && s.shared.armed == map[] && s == Step(s, Stop)
    ensures Run(s, actions) == s
    decreases |actions|
  {
    if actions != [] {
      assert Step(s, actions[0]) == s;
      StoppedForGood(s, actions[1..]);
    }
  }

  /** A retry armed after stopping. */
  lemma StopLeavesRunning(dmId: string)
    ensures Run(INITIAL, [Joined(dmId), Stop, ScanEnds(0, [], true), Proceed(0)]).shared.armed == map[0 := RetryScan(dmId, 0)]
  {
    var s1 := Step(INITIAL, Joined(dmId));
    var s2 := Step(s1, Stop);
    var s3 := Step(s2, ScanEnds(0, [], true));
    var s4 := Step(s3, Proceed(0));
    assert Run(s3, [Proceed(0)]) == s4;
    assert Run(s2, [ScanEnds(0, [], true), Proceed(0)]) == s4;
    assert Run(s1, [Stop, ScanEnds(0, [], true), Proceed(0)]) == s4;
    assert Run(INITIAL, [Joined(dmId), Stop, ScanEnds(0, [], true), Proceed(0)]) == s4;
  }

  // ---- Which invocations can still arm a timer ------------------------------

  /** Neither the message nor its request has been served. */
  predicate Unmet(s: Shared, e: Event) {
    e.messageId !in s.messageIds && KeysOf(e) !! s.keys
  }

  /** A success for it would arm a timer, or a failure a retry. */
  predicate Arming(s: Shared, r: Recovery, e: Event) {
    Unmet(s, e) && (RequestKey(e).Some? || r.retryCount < MAX_RETRIES)
  }

  /** The rest of a recovery can arm a timer: it wants, or may come to want, a
      retry below the limit, or a message to come is arming. */
  predicate RestMayArm(s: Shared, r: Recovery, mayWish: bool) {
    || (r.retryCount < MAX_RETRIES && (r.shouldRetry || mayWish))
    || exists i :: 0 <= i < |r.pending| && Arming(s, r, r.pending[i])
  }

  predicate MayArm(s: Shared, t: Task) {
    match t.phase
    case Scanning => true
    case Dispatching(e) => RequestKey(e).Some? || (t.recovery.Some? && RestMayArm(s, t.recovery.value, true))
    case _ => t.recovery.Some? && RestMayArm(s, t.recovery.value, false)
  }

  // ---- None can: no timer is ever armed ------------------------------------

  ghost predicate Silent(s: State) {
    && !s.shared.subscribed && s.shared.armed == map[]
    && s.shared.retryTimers == map[] && s.shared.keyTimers == map[]
    && forall id :: id in s.tasks ==> !MayArm(s.shared, s.tasks[id])
  }

  /** A recovery can arm no more when more is served and less is to come. */
  lemma RestShrinks(s: Shared, s': Shared, r: Recovery, r': Recovery, mayWish: bool)
    requires !RestMayArm(s, r, mayWish)
    requires s.messageIds <= s'.messageIds && s.keys <= s'.keys
    requires r'.retryCount == r.retryCount && (r'.shouldRetry ==> r.shouldRetry || mayWish)
    requires r'.pending == r.pending || (r.pending != [] && r'.pending == r.pending[1..])
    ensures !RestMayArm(s', r', false) && (mayWish ==> !RestMayArm(s', r', true))
  {
    forall i | 0 <= i < |r'.pending|
      ensures !Arming(s', r', r'.pending[i])
    {
      var j := if r'.pending == r.pending then i else i + 1;
      assert r.pending[j] == r'.pending[i] && !Arming(s, r, r.pending[j]);
    }
  }

  /** All other invocations can arm no more when more is served. */
  lemma OthersSilent(s: State, s': State, id: nat)
    requires Silent(s)
    requires s.shared.messageIds <= s'.shared.messageIds && s.shared.keys <= s'.shared.keys
    requires forall i :: i in s'.tasks && i != id ==> i in s.tasks && s'.tasks[i] == s.tasks[i]
    ensures forall i :: i in s'.tasks && i != id ==> !MayArm(s'.shared, s'.tasks[i])
  {
    forall i | i in s'.tasks && i != id
      ensures !MayArm(s'.shared, s'.tasks[i])
    {
      var t := s.tasks[i];
      assert !MayArm(s.shared, t);
      if t.recovery.Some? {
        RestShrinks(s.shared, s'.shared, t.recovery.value, t.recovery.value, t.phase.Dispatching?);
      }
    }
  }

  lemma ProceedSilent(s: State, id: nat)
    requires Silent(s)
    ensures Silent(Step(s, Proceed(id)))
  {
    var s' := Step(s, Proceed(id));
    OthersSilent(s, s', id);
    if IsBetween(s, id) && s.tasks[id].recovery.value.pending != [] {
      var r := s.tasks[id].recovery.value;
      var rest := r.(pending := r.pending[1..]);
      assert !MayArm(s.shared, s.tasks[id]);
      assert !Arming(s.shared, r, r.pending[0]);
      RestShrinks(s.shared, s'.shared, r, rest, !(r.retryCount < MAX_RETRIES));
    }
  }

  lemma SettleSilent(s: State, id: nat, result: Dispatched)
    requires Silent(s)
    ensures Silent(Step(s, Settle(id, result)))
  {
    var s' := Step(s, Settle(id, result));
    if IsDispatching(s, id) {
      assert !MayArm(s.shared, s.tasks[id]);
      OthersSilent(s, s', id);
      if s.tasks[id].recovery.Some? && id in s'.tasks {
        RestShrinks(s.shared, s'.shared, s.tasks[id].recovery.value, s'.tasks[id].recovery.value, true);
      }
    }
  }

  lemma CallbackSilent(s: State, id: nat)
    requires Silent(s)
    ensures Silent(Step(s, CallbackEnds(id)))
  {
    var s' := Step(s, CallbackEnds(id));
    OthersSilent(s, s', id);
    if s' != s && id in s'.tasks {
      assert !MayArm(s.shared, s.tasks[id]);
      RestShrinks(s.shared, s'.shared, s.tasks[id].recovery.value, s'.tasks[id].recovery.value, false);
    }
  }

  lemma StepSilent(s: State, a: Action)
    requires Silent(s)
    ensures Silent(Step(s, a))
  {
    match a
    case Proceed(id) => ProceedSilent(s, id);
    case Settle(id, result) => SettleSilent(s, id, result);
    case CallbackEnds(id) => CallbackSilent(s, id);
    case ScanEnds(id, _, _) => assert id in s.tasks ==> !MayArm(s.shared, s.tasks[id]);
    case ScanThrows(id) => assert id in s.tasks ==> !MayArm(s.shared, s.tasks[id]);
    case Stop => assert Stopped(s.shared) == s.shared;
    case _ =>
  }

  lemma {:induction false} RunSilent(s: State, actions: seq<Action>)
    requires Silent(s)
    ensures Silent(Run(s, actions))
    decreases |actions|
  {
    if actions != [] {
      StepSilent(s, actions[0]);
      RunSilent(Step(s, actions[0]), actions[1..]);
    }
  }

  // ---- One can: some run arms a timer ---------------------------------------

  /** Some run arms a timer. */
  ghost predicate CanArm(s: State) { exists actions :: Arms(s, actions) }

  predicate Arms(s: State, actions: seq<Action>) { Run(s, actions).shared.armed != map[] }

  lemma ArmsNow(s: State, a: Action)
    requires Step(s, a).shared.armed != map[]
    ensures CanArm(s)
  {
    assert Run(s, [a]) == Run(Step(s, a), []);
    assert Arms(s, [a]);
  }

  lemma ArmsNext(s: State, a: Action)
    requires CanArm(Step(s, a))
    ensures CanArm(s)
  {
    var actions :| Arms(Step(s, a), actions);
    assert ([a] + actions)[1..] == actions;
    assert Arms(s, [a] + actions);
  }

  lemma WinArms(s: State, id: nat)
    requires IsDispatching(s, id) && RequestKey(s.tasks[id].phase.event).Some?
    ensures CanArm(s)
  {
    var key := RequestKey(s.tasks[id].phase.event).value;
    var marked := Step(s, Settle(id, Success)).shared;
    assert marked.keyTimers[key] in marked.armed;
    ArmsNow(s, Settle(id, Success));
  }

  /** A recovery that wants a retry can be brought to its end, and arms one. */
  lemma WishArms(s: State, id: nat)
    requires Inv(s) && id in s.tasks && s.tasks[id].recovery.Some?
    requires Wants(s, id, s.tasks[id].recovery.value.dmId, s.tasks[id].recovery.value.retryCount)
    requires s.tasks[id].recovery.value.retryCount < MAX_RETRIES
    ensures CanArm(s)
  {
    var r := s.tasks[id].recovery.value;
    var actions := CanFinish(s, id);
    assert !Advances(Settle(id, Threw), id);
    var n := WantedRetryArmed(s, actions, id, r.dmId, r.retryCount);
    RunKeepsInv(s, actions[..n + 1]);
    var shared := Run(s, actions[..n + 1]).shared;
    assert shared.retryTimers[r.dmId] in shared.armed;
    assert Arms(s, actions[..n + 1]);
  }

  ghost predicate NoneBusy(s: State) { forall i :: !IsBusy(s, i) }

  lemma NothingInFlight(s: State)
    requires Inv(s) && NoneBusy(s)
    ensures s.shared.inflightIds == {} && s.shared.inflightKeys == {}
  {
  }

  /** With nothing in flight, a recovery gets to its first arming message. */
  lemma {:induction false} ServeArms(s: State, id: nat)
    requires Inv(s) && NoneBusy(s) && IsBetween(s, id)
    requires exists i :: 0 <= i < |s.tasks[id].recovery.value.pending| && Arming(s.shared, s.tasks[id].recovery.value, s.tasks[id].recovery.value.pending[i])
    ensures CanArm(s)
    decreases |s.tasks[id].recovery.value.pending|
  {
    var r := s.tasks[id].recovery.value;
    var e := r.pending[0];
    var s1 := Step(s, Proceed(id));
    NothingInFlight(s);
    StepKeepsInv(s, Proceed(id));
    if Arming(s.shared, r, e) {
      FirstArms(s, id);
    } else {
      var release := Settle(id, Nothing(false));
      var s2 := if Unmet(s.shared, e) then Step(s1, release) else s1;
      Skipped(s, id);
      StepKeepsInv(s1, release);
      var i :| 0 <= i < |r.pending| && Arming(s.shared, r, r.pending[i]);
      assert r.pending[1..][i - 1] == r.pending[i];
      assert Arming(s2.shared, s2.tasks[id].recovery.value, s2.tasks[id].recovery.value.pending[i - 1]);
      ServeArms(s2, id);
      if Unmet(s.shared, e) {
        ArmsNext(s1, release);
      }
      ArmsNext(s, Proceed(id));
    }
  }

  lemma FirstArms(s: State, id: nat)
    requires Inv(s) && NoneBusy(s) && IsBetween(s, id)
    requires s.tasks[id].recovery.value.pending != []
    requires Arming(s.shared, s.tasks[id].recovery.value, s.tasks[id].recovery.value.pending[0])
    ensures CanArm(s)
  {
    var r := s.tasks[id].recovery.value;
    var s1 := Step(s, Proceed(id));
    NothingInFlight(s);
    StepKeepsInv(s, Proceed(id));
    assert Admits(s.shared, r.pending[0]);
    if RequestKey(r.pending[0]).Some? {
      WinArms(s1, id);
    } else {
      StepKeepsInv(s1, Settle(id, Nothing(true)));
      WishArms(Step(s1, Settle(id, Nothing(true))), id);
      ArmsNext(s1, Settle(id, Nothing(true)));
    }
    ArmsNext(s, Proceed(id));
  }

  /** Passing over the first message, with a failing dispatch if it is open. */
  lemma Skipped(s: State, id: nat)
    requires Inv(s) && NoneBusy(s) && IsBetween(s, id) && s.tasks[id].recovery.value.pending != []
    ensures var r, s1 := s.tasks[id].recovery.value, Step(s, Proceed(id));
      var s2 := if Unmet(s.shared, r.pending[0]) then Step(s1, Settle(id, Nothing(false))) else s1;
      && IsBetween(s2, id) && s2.tasks[id].recovery.value == r.(pending := r.pending[1..])
      && s2.shared.messageIds == s.shared.messageIds && s2.shared.keys == s.shared.keys && NoneBusy(s2)
  {
    NothingInFlight(s);
    var s1 := Step(s, Proceed(id));
    var s2 := if Unmet(s.shared, s.tasks[id].recovery.value.pending[0]) then Step(s1, Settle(id, Nothing(false))) else s1;
    forall i
      ensures !IsBusy(s2, i)
    {
      assert !IsBusy(s, i);
    }
  }

  // ---- Getting there --------------------------------------------------------

  /** A failing dispatch, or the end of a callback. */
  function Release(t: Task, id: nat): Action {
    if t.phase.Dispatching? then Settle(id, Nothing(false)) else CallbackEnds(id)
  }

  function BusyIds(s: State): set<nat> { set i | i in s.tasks && Busy(s.tasks[i]) }

  /** Releasing an invocation serves nothing and leaves recoveries as they are. */
  ghost predicate Released(s: State, s': State) {
    && s'.shared.messageIds == s.shared.messageIds && s'.shared.keys == s.shared.keys
    && forall i :: i in s.tasks && s.tasks[i].recovery.Some? ==>
         && i in s'.tasks && s'.tasks[i].recovery == s.tasks[i].recovery
         && s'.tasks[i].phase == (if Busy(s.tasks[i]) && !IsBusy(s', i) then Between else s.tasks[i].phase)
  }

  lemma ReleaseOne(s: State, id: nat)
    requires IsBusy(s, id)
    ensures var s' := Step(s, Release(s.tasks[id], id));
      Released(s, s') && BusyIds(s') == BusyIds(s) - {id}
  {
  }

  /** Everything in flight can fail or end without serving anything. */
  lemma {:induction false} CanArmOnceCalm(s: State, id: nat)
    requires Inv(s) && id in s.tasks && s.tasks[id].recovery.Some? && !s.tasks[id].phase.Scanning?
    requires exists i :: 0 <= i < |s.tasks[id].recovery.value.pending| && Arming(s.shared, s.tasks[id].recovery.value, s.tasks[id].recovery.value.pending[i])
    ensures CanArm(s)
    decreases |BusyIds(s)|
  {
    if i :| i in BusyIds(s) {
      var a := Release(s.tasks[i], i);
      ReleaseOne(s, i);
      StepKeepsInv(s, a);
      CanArmOnceCalm(Step(s, a), id);
      ArmsNext(s, a);
    } else {
      assert NoneBusy(s) by {
        forall i ensures !IsBusy(s, i) { assert i !in BusyIds(s); }
      }
      assert !IsBusy(s, id);
      ServeArms(s, id);
    }
  }

  // ---- A scan can find something new ----------------------------------------

  /** A string longer than all the given ones. */
  lemma {:induction false} Longer(used: set<string>) returns (n: nat)
    ensures forall x :: x in used ==> |x| < n
  {
    if used == {} {
      n := 0;
    } else {
      var x :| x in used;
      n := Longer(used - {x});
      if |x| >= n {
        n := |x| + 1;
      }
    }
  }

  lemma NewRequest(s: Shared) returns (e: Candidate)
    ensures Admits(s, e) && RequestKey(e).Some?
  {
    var n := Longer(s.messageIds + s.inflightIds + s.keys + s.inflightKeys);
    var text := seq(n + 1, _ => 'x');
    e := Event(text, "", true, JoinRequest(text), 0, false);
    assert |RequestKey(e).value| >= n + 1;
  }

  lemma ScanArms(s: State, id: nat)
    requires Inv(s) && IsScanning(s, id)
    ensures CanArm(s)
  {
    var e := NewRequest(s.shared);
    var s1 := Step(s, ScanEnds(id, [e], false));
    var s2 := Step(s1, Proceed(id));
    assert IsDispatching(s2, id) && s2.tasks[id].phase.event == e;
    WinArms(s2, id);
    ArmsNext(s1, Proceed(id));
    ArmsNext(s, ScanEnds(id, [e], false));
  }

  // ---- The law --------------------------------------------------------------

  lemma MayArmArms(s: State, id: nat)
    requires Inv(s) && id in s.tasks && MayArm(s.shared, s.tasks[id])
    ensures CanArm(s)
  {
    var t := s.tasks[id];
    assert TaskSane(t);
    if t.phase.Scanning? {
      ScanArms(s, id);
    } else if t.phase.Dispatching? && RequestKey(t.phase.event).Some? {
      WinArms(s, id);
    } else {
      var r := t.recovery.value;
      if r.retryCount < MAX_RETRIES && r.shouldRetry {
        WishArms(s, id);
      } else if r.retryCount < MAX_RETRIES && t.phase.Dispatching? {
        StepKeepsInv(s, Settle(id, Nothing(true)));
        WishArms(Step(s, Settle(id, Nothing(true))), id);
        ArmsNext(s, Settle(id, Nothing(true)));
      } else {
        CanArmOnceCalm(s, id);
      }
    }
  }

  /** After stopping, some timer can still be armed exactly when an invocation
      under way scans, or dispatches a request with a key, or belongs to a
      recovery that wants or may come to want a retry below the limit, or that
      has a message to come which would arm one. */
  lemma ArmsAfterStopIff(s: State)
    requires Inv(s)
    ensures CanArm(Step(s, Stop)) <==> exists id :: id in s.tasks && MayArm(s.shared, s.tasks[id])
  {
    var stopped := Step(s, Stop);
    StopKeeps(s);
    StoppedKeeps(s.shared);
    if id :| id in s.tasks && MayArm(s.shared, s.tasks[id]) {
      MayArmStopped(s.shared, s.tasks[id]);
      MayArmArms(stopped, id);
    } else {
      forall id | id in s.tasks
        ensures !MayArm(stopped.shared, s.tasks[id])
      {
        MayArmStopped(s.shared, s.tasks[id]);
      }
      forall actions
        ensures !Arms(stopped, actions)
      {
        RunSilent(stopped, actions);
      }
    }
  }

  lemma MayArmStopped(s: Shared, t: Task)
    ensures MayArm(Stopped(s), t) == MayArm(s, t)
  {
    if t.recovery.Some? {
      var r := t.recovery.value;
      assert forall i :: 0 <= i < |r.pending| ==> Arming(Stopped(s), r, r.pending[i]) == Arming(s, r, r.pending[i]);
    }
  }
}
