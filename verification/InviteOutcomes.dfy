/** What each action on the invite listener starts, carries on and ends, and
    what becomes of a request from its arrival to the end of the run. */
module InviteOutcomes {
  import opened Prelude
  import opened InviteEvents
  import opened InviteShared
  import opened InviteListener
  import opened InviteRuns
  import opened InviteLaws

  // ---- Which requests are open --------------------------------------------

  /** Some invocation serves this message or this request. */
  ghost predicate BeingServed(s: State, e: Event) {
    exists i :: IsBusy(s, i) && (EventOf(s, i).messageId == e.messageId || SharesKey(EventOf(s, i), e))
  }

  /** Neither has been processed and remembered, nor is being served. */
  ghost predicate IsOpen(s: State, e: Event) {
    && e.messageId !in s.shared.messageIds
    && (forall k :: RequestKey(e) == Some(k) ==> k !in s.shared.keys)
    && !BeingServed(s, e)
  }

  /** The in-flight marks stand for invocations. */
  lemma MarksMean(s: State, e: Event)
    requires Marked(s) && NoLeak(s)
    ensures e.messageId in s.shared.inflightIds || !(KeysOf(e) !! s.shared.inflightKeys) <==> BeingServed(s, e)
  {
    if BeingServed(s, e) {
      var i :| IsBusy(s, i) && (EventOf(s, i).messageId == e.messageId || SharesKey(EventOf(s, i), e));
      assert EventOf(s, i).messageId in s.shared.inflightIds && KeysOf(EventOf(s, i)) <= s.shared.inflightKeys;
    }
    if e.messageId in s.shared.inflightIds {
      var i :| IsBusy(s, i) && EventOf(s, i).messageId == e.messageId;
      assert BeingServed(s, e);
    }
    if RequestKey(e).Some? && RequestKey(e).value in s.shared.inflightKeys {
      var i :| IsBusy(s, i) && RequestKey(EventOf(s, i)) == Some(RequestKey(e).value);
      assert SharesKey(EventOf(s, i), e);
    }
  }

  /** The checks before a dispatch let through exactly the open requests. */
  lemma AdmitsIffOpen(s: State, e: Event)
    requires Marked(s) && NoLeak(s)
    ensures Admits(s.shared, e) <==> IsOpen(s, e)
  {
    MarksMean(s, e);
  }

  // ---- What starts --------------------------------------------------------

  /** A live message starts a dispatch exactly when the listener is subscribed
      and the message is a candidate whose request is open. Otherwise it leaves
      no trace. */
  lemma ArriveDecides(s: State, e: Event)
    requires Inv(s)
    ensures var s' := Step(s, Arrive(e));
      && s.nextTask !in s.tasks
      && (s.shared.subscribed && IsCandidate(e) && IsOpen(s, e) ==> s'.tasks == s.tasks[s.nextTask := Task(Dispatching(e), None)])
      && (!(s.shared.subscribed && IsCandidate(e) && IsOpen(s, e)) ==> s' == s)
  {
    AdmitsIffOpen(s, e);
  }

  /** A joined conversation and a firing retry each start a scan; the retry is
      one round further on. A key that is forgotten starts nothing. */
  lemma ScanStarts(s: State, dmId: string, t: nat)
    requires Inv(s)
    ensures s.nextTask !in s.tasks
    ensures Step(s, Joined(dmId)).tasks ==
      if s.shared.subscribed then s.tasks[s.nextTask := Task(Scanning, Some(Recovery(dmId, 0, [], false)))] else s.tasks
    ensures t in s.shared.armed ==> t !in Step(s, Fire(t)).shared.armed
    ensures t in s.shared.armed && s.shared.armed[t].RetryScan? ==>
      Step(s, Fire(t)).tasks ==
        s.tasks[s.nextTask := Task(Scanning, Some(Recovery(s.shared.armed[t].dmId, s.shared.armed[t].retryCount + 1, [], false)))]
    ensures t in s.shared.armed && s.shared.armed[t].ForgetKey? ==>
      Step(s, Fire(t)).tasks == s.tasks && s.shared.armed[t].key !in Step(s, Fire(t)).shared.keys
  {
  }

  /** A recovery takes its messages in turn: one whose request is open is
      dispatched, any other is passed over. */
  lemma ProceedDecides(s: State, id: nat)
    requires Inv(s) && IsBetween(s, id) && s.tasks[id].recovery.value.pending != []
    ensures var r := s.tasks[id].recovery.value;
      var rest := r.(pending := r.pending[1..]);
      Step(s, Proceed(id)).tasks ==
        s.tasks[id := Task(if IsOpen(s, r.pending[0]) then Dispatching(r.pending[0]) else Between, Some(rest))]
  {
    AdmitsIffOpen(s, s.tasks[id].recovery.value.pending[0]);
  }

  /** A recovery without messages ends, and arms a retry of its round exactly
      when it wants one, has fewer than three behind it, and none is armed for
      its conversation. */
  lemma RecoveryEnds(s: State, id: nat)
    requires Inv(s) && IsBetween(s, id) && s.tasks[id].recovery.value.pending == []
    ensures var r, s' := s.tasks[id].recovery.value, Step(s, Proceed(id));
      && s'.tasks == s.tasks - {id}
      && s.shared.nextTimer !in s.shared.armed
      && s'.shared.armed ==
           if r.shouldRetry && r.retryCount < 3 && r.dmId !in s.shared.retryTimers
           then s.shared.armed[s.shared.nextTimer := RetryScan(r.dmId, r.retryCount)] else s.shared.armed
  {
  }

  /** A scan that throws ends its recovery without a trace. */
  lemma ScanThrowsEnds(s: State, id: nat)
    requires IsScanning(s, id)
    ensures Step(s, ScanThrows(id)).tasks == s.tasks - {id} && Step(s, ScanThrows(id)).shared == s.shared
  {
  }

  // ---- How a dispatch comes back ------------------------------------------

  /** Only a success is recorded, and only a success or a final failure is
      reported; in every other case the invocation lets go of the request, which
      is then open again. */
  lemma SettleDecides(s: State, id: nat, result: Dispatched)
    requires Inv(s) && IsDispatching(s, id)
    ensures var e, s' := s.tasks[id].phase.event, Step(s, Settle(id, result));
      && (result.Success? ==>
            && id in s'.tasks && s'.tasks[id].phase == Accepting(e) && e.messageId in s'.shared.messageIds
            && forall k :: RequestKey(e) == Some(k) ==>
                 && k in s'.shared.keys && k in s'.shared.keyTimers
                 && s'.shared.keyTimers[k] in s'.shared.armed && s'.shared.armed[s'.shared.keyTimers[k]] == ForgetKey(k))
      && (result == Failure(false) ==> id in s'.tasks && s'.tasks[id].phase == Rejecting(e))
      && (!result.Success? ==> s'.shared.messageIds == s.shared.messageIds && s'.shared.keys == s.shared.keys)
      && (!result.Success? && result != Failure(false) ==> IsOpen(s', e))
  {
    if !result.Success? && result != Failure(false) {
      LeftIsOpen(s, id, Step(s, Settle(id, result)));
    }
  }

  /** An invocation that lets go of an unserved request leaves it open. */
  lemma LeftIsOpen(s: State, id: nat, s': State)
    requires Inv(s) && IsDispatching(s, id) && !IsBusy(s', id)
    requires forall i :: i != id ==> IsBusy(s', i) == IsBusy(s, i) && (IsBusy(s, i) ==> EventOf(s', i) == EventOf(s, i))
    requires s'.shared.messageIds == s.shared.messageIds && s'.shared.keys == s.shared.keys
    ensures IsOpen(s', s.tasks[id].phase.event)
  {
    var e := s.tasks[id].phase.event;
    assert IsBusy(s, id) && EventOf(s, id) == e;
    forall i | IsBusy(s', i)
      ensures EventOf(s', i).messageId != e.messageId && !SharesKey(EventOf(s', i), e)
    {
      assert IsBusy(s, i) && i != id;
    }
  }

  /** When its callback returns, an invocation no longer serves its message; a
      live one ends, a recovery goes on with the next. */
  lemma CallbackDecides(s: State, id: nat)
    requires Inv(s) && IsBusy(s, id) && !IsDispatching(s, id)
    ensures var e, s' := EventOf(s, id), Step(s, CallbackEnds(id));
      && !BeingServed(s', e)
      && s'.shared.messageIds == s.shared.messageIds && s'.shared.keys == s.shared.keys
      && s'.tasks == if s.tasks[id].recovery.None? then s.tasks - {id} else s.tasks[id := Task(Between, s.tasks[id].recovery)]
  {
    var e, s' := EventOf(s, id), Step(s, CallbackEnds(id));
    forall i | IsBusy(s', i)
      ensures EventOf(s', i).messageId != e.messageId && !SharesKey(EventOf(s', i), e)
    {
      assert IsBusy(s, i) && i != id;
    }
  }

  // ---- From arrival to the end of the run ---------------------------------

  predicate Dispatches(s: State, id: nat, t: Task) { id in s.tasks && s.tasks[id] == t && t.phase.Dispatching? }

  /** Nothing but its own return takes a dispatch further. */
  lemma StepLetsDispatch(s: State, a: Action, id: nat, t: Task)
    requires Inv(s) && Dispatches(s, id, t) && !(a.Settle? && a.task == id)
    ensures Dispatches(Step(s, a), id, t)
  {
  }

  predicate NeverSettles(actions: seq<Action>, id: nat) {
    forall i :: 0 <= i < |actions| ==> !(actions[i].Settle? && actions[i].task == id)
  }

  lemma {:induction false} RunLetsDispatch(s: State, actions: seq<Action>, id: nat, t: Task)
    requires Inv(s) && Dispatches(s, id, t) && NeverSettles(actions, id)
    ensures Dispatches(Run(s, actions), id, t)
    decreases |actions|
  {
    if actions != [] {
      StepLetsDispatch(s, actions[0], id, t);
      StepKeepsInv(s, actions[0]);
      RunLetsDispatch(Step(s, actions[0]), actions[1..], id, t);
    }
  }

  /** What is processed stays so: a message for good, a key until its timer
      forgets it. */
  lemma {:induction false} ProcessedStays(s: State, actions: seq<Action>, m: string, key: Option<string>)
    requires Inv(s) && m in s.shared.messageIds && (key.Some? ==> key.value in s.shared.keys)
    ensures m in Run(s, actions).shared.messageIds
    ensures key.Some? && Forgot(key.value) !in Log(s, actions) ==> key.value in Run(s, actions).shared.keys
    decreases |actions|
  {
    if actions != [] {
      var s1, rest, step := Step(s, actions[0]), actions[1..], StepLog(s, actions[0]);
      StepFair(s, actions[0]);
      StepKeepsInv(s, actions[0]);
      if key.Some? && step == [Forgot(key.value)] {
        assert step[0] in Log(s, actions);
        ProcessedStays(s1, rest, m, None);
      } else {
        ProcessedStays(s1, rest, m, key);
      }
    }
  }

  /** A dispatch that succeeds leaves its message and its request processed. */
  lemma SuccessStays(s: State, id: nat, e: Event, later: seq<Action>)
    requires Inv(s) && Dispatches(s, id, Task(Dispatching(e), None))
    ensures var won := Step(s, Settle(id, Success));
      && StepLog(s, Settle(id, Success)) == [Won(e.messageId, RequestKey(e))]
      && e.messageId in Run(won, later).shared.messageIds
      && (forall k :: RequestKey(e) == Some(k) && Forgot(k) !in Log(won, later) ==> k in Run(won, later).shared.keys)
  {
    SettleDecides(s, id, Success);
    StepKeepsInv(s, Settle(id, Success));
    ProcessedStays(Step(s, Settle(id, Success)), later, e.messageId, RequestKey(e));
  }

  /** From its arrival on, a live candidate whose request is open is being
      dispatched, whatever else happens, until that dispatch returns; and when it
      succeeds, the message is processed for the rest of the run, and the request
      until its key is forgotten. */
  lemma LiveRequestServed(s: State, e: Event, until: seq<Action>, later: seq<Action>)
    requires Inv(s) && s.shared.subscribed && IsCandidate(e) && IsOpen(s, e) && NeverSettles(until, s.nextTask)
    ensures var waiting := Run(Step(s, Arrive(e)), until);
      var won := Step(waiting, Settle(s.nextTask, Success));
      && Dispatches(waiting, s.nextTask, Task(Dispatching(e), None))
      && StepLog(waiting, Settle(s.nextTask, Success)) == [Won(e.messageId, RequestKey(e))]
      && e.messageId in Run(won, later).shared.messageIds
      && (forall k :: RequestKey(e) == Some(k) && Forgot(k) !in Log(won, later) ==> k in Run(won, later).shared.keys)
  {
    var id := s.nextTask;
    var s1 := Step(s, Arrive(e));
    ArriveDecides(s, e);
    StepKeepsInv(s, Arrive(e));
    RunLetsDispatch(s1, until, id, Task(Dispatching(e), None));
    RunKeepsInv(s1, until);
    var waiting := Run(s1, until);
    SuccessStays(waiting, id, e, later);
  }

  // ---- A recovery goes through all it found -------------------------------

  /** Action `n` of the run is the turn of message `e` in recovery `id`. */
  ghost predicate TurnOf(s: State, actions: seq<Action>, id: nat, e: Event, n: nat)
    requires n < |actions|
  {
    var before := Run(s, actions[..n]);
    && actions[n] == Proceed(id) && IsBetween(before, id)
    && before.tasks[id].recovery.value.pending != [] && before.tasks[id].recovery.value.pending[0] == e
  }

  /** The recovery still has this message before it. */
  predicate Awaits(s: State, id: nat, e: Event) {
    && id in s.tasks && !s.tasks[id].phase.Scanning? && s.tasks[id].recovery.Some?
    && e in s.tasks[id].recovery.value.pending
  }

  predicate ItsTurn(s: State, a: Action, id: nat, e: Event) {
    a == Proceed(id) && IsBetween(s, id) && s.tasks[id].recovery.value.pending != [] && s.tasks[id].recovery.value.pending[0] == e
  }

  lemma StepAwaits(s: State, a: Action, id: nat, e: Event)
    requires TasksSane(s) && Awaits(s, id, e) && a != Settle(id, Threw) && !ItsTurn(s, a, id, e)
    ensures Awaits(Step(s, a), id, e)
  {
    if a == Proceed(id) && IsBetween(s, id) {
      var pending := s.tasks[id].recovery.value.pending;
      assert pending == [pending[0]] + pending[1..];
    }
  }

  /** Every message a scan found comes to its turn before the recovery ends,
      unless an exception ends it; then it is dispatched if its request is open. */
  lemma {:induction false} EveryMessageHasItsTurn(s: State, actions: seq<Action>, id: nat, e: Event) returns (n: nat)
    requires Inv(s) && Awaits(s, id, e) && Settle(id, Threw) !in actions && id !in Run(s, actions).tasks
    ensures n < |actions| && TurnOf(s, actions, id, e, n)
    ensures var before, after := Run(s, actions[..n]), Run(s, actions[..n + 1]);
      id in after.tasks && (IsOpen(before, e) ==> after.tasks[id].phase == Dispatching(e))
    decreases |actions|
  {
    assert actions != [];
    var s1, rest := Step(s, actions[0]), actions[1..];
    StepKeepsInv(s, actions[0]);
    if ItsTurn(s, actions[0], id, e) {
      n := 0;
      assert Run(s, actions[..0]) == s && Run(s, actions[..1]) == Run(s1, actions[..1][1..]) == s1;
      ProceedDecides(s, id);
    } else {
      StepAwaits(s, actions[0], id, e);
      n := EveryMessageHasItsTurn(s1, rest, id, e);
      RunTail(s, actions, n);
      RunTail(s, actions, n + 1);
      n := n + 1;
    }
  }

  /** A scan that ends hands its recovery all that it found. */
  lemma ScanHandsOver(s: State, id: nat, messages: seq<Candidate>, shouldRetry: bool, e: Candidate)
    requires IsScanning(s, id) && e in messages
    ensures Awaits(Step(s, ScanEnds(id, messages, shouldRetry)), id, e)
  {
  }

  // ---- Single events ------------------------------------------------------

  /** Of all error categories, these are the ones that may pass. */
  lemma RetryableCategories(category: string)
    requires category in {"validation", "not_found", "permission", "auth", "internal", "timeout", "cancelled", "network"}
    ensures Retryable(category) <==> category in {"not_found", "internal", "timeout", "cancelled", "network"}
  {
  }

  predicate InBasicPlane(text: string) { forall i :: 0 <= i < |text| ==> text[i] as int < 0x1_0000 }

  lemma {:induction false} UnitsBounds(text: string)
    ensures |text| <= Units(text) <= 2 * |text|
    ensures InBasicPlane(text) <==> Units(text) == |text|
  {
    if text != "" {
      var front := text[..|text| - 1];
      UnitsBounds(front);
      assert InBasicPlane(text) <==> InBasicPlane(front) && text[|text| - 1] as int < 0x1_0000;
    }
  }

  /** No historical message is a candidate; any other is one if it is a
      structured join request, whatever it holds. Plain text is one exactly when
      it is long enough and has no space: fifty characters, of which those
      outside the basic plane count twice. */
  lemma CandidateIff(e: Event)
    ensures e.historical ==> !IsCandidate(e)
    ensures !e.historical && e.structured ==> IsCandidate(e)
    ensures !e.historical && !e.structured && e.content.Plain? ==>
      var text := e.content.text;
      && (InBasicPlane(text) ==> (IsCandidate(e) <==> |text| >= 50 && forall i :: 0 <= i < |text| ==> text[i] != ' '))
      && (IsCandidate(e) ==> |text| >= 25 && ' ' !in text)
      && (|text| >= 50 && ' ' !in text ==> IsCandidate(e))
    ensures !e.structured && !e.content.Plain? ==> !IsCandidate(e)
  {
    if e.content.Plain? {
      UnitsBounds(e.content.text);
    }
  }
}
