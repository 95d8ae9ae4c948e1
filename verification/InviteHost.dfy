/** The listener object: sets and maps that every invocation updates in place,
    one method for each uninterrupted stretch of code. */
module InviteHost {
  import opened Prelude
  import opened InviteEvents
  import opened InviteShared

  class Listener {
    var processedMessageIds: set<string>
    var processedInviteKeys: set<string>
    var inflightMessageIds: set<string>
    var inflightInviteKeys: set<string>
    var recoveryRetryTimers: map<string, nat>
    var processedInviteKeyTimers: map<string, nat>
    var armed: map<nat, Alarm>
    var nextTimer: nat
    var subscribed: bool

    function View(): Shared
      reads this
    {
      Shared(processedMessageIds, processedInviteKeys, inflightMessageIds, inflightInviteKeys,
             recoveryRetryTimers, processedInviteKeyTimers, armed, nextTimer, subscribed)
    }

    constructor ()
      ensures View() == START
    {
      processedMessageIds, processedInviteKeys, inflightMessageIds, inflightInviteKeys := {}, {}, {}, {};
      recoveryRetryTimers, processedInviteKeyTimers, armed, nextTimer := map[], map[], map[], 0;
      subscribed := true;
    }

    /** From the call to the dispatch: check, then mark in flight. */
    method Begin(event: Event) returns (admitted: bool)
      modifies this
      ensures admitted == old(Admits(View(), event))
      ensures View() == if admitted then old(Enter(View(), event)) else old(View())
    {
      var key := RequestKey(event);
      if event.messageId in processedMessageIds {
        return false;
      }
      if key.Some? && key.value in processedInviteKeys {
        return false;
      }
      if event.messageId in inflightMessageIds {
        return false;
      }
      if key.Some? && key.value in inflightInviteKeys {
        return false;
      }
      inflightMessageIds := inflightMessageIds + {event.messageId};
      if key.Some? {
        inflightInviteKeys := inflightInviteKeys + {key.value};
      }
      return true;
    }

    /** The `finally` block. */
    method End(event: Event)
      modifies this
      ensures View() == old(Leave(View(), event))
    {
      var key := RequestKey(event);
      inflightMessageIds := inflightMessageIds - {event.messageId};
      if key.Some? {
        inflightInviteKeys := inflightInviteKeys - {key.value};
      }
    }

    /** A dispatch has succeeded. */
    method AcceptJoin(event: Event)
      modifies this
      ensures View() == old(Accept(View(), event))
    {
      processedMessageIds := processedMessageIds + {event.messageId};
      var key := RequestKey(event);
      if key.Some? {
        MarkInviteKeyProcessed(key.value);
      }
    }

    method MarkInviteKeyProcessed(requestKey: string)
      modifies this
      ensures View() == old(MarkKey(View(), requestKey))
    {
      processedInviteKeys := processedInviteKeys + {requestKey};
      ClearProcessedInviteKeyTimer(requestKey);
      var timer := Arm(ForgetKey(requestKey));
      processedInviteKeyTimers := processedInviteKeyTimers[requestKey := timer];
    }

    method Arm(alarm: Alarm) returns (timer: nat)
      modifies this
      ensures timer == old(nextTimer)
      ensures View() == old(View().(armed := armed[nextTimer := alarm], nextTimer := nextTimer + 1))
    {
      timer := nextTimer;
      armed := armed[timer := alarm];
      nextTimer := timer + 1;
    }

    method ClearProcessedInviteKeyTimer(requestKey: string)
      modifies this
      ensures View() == old(ClearKeyTimer(View(), requestKey))
    {
      if requestKey !in processedInviteKeyTimers {
        return;
      }
      armed := armed - {processedInviteKeyTimers[requestKey]};
      processedInviteKeyTimers := processedInviteKeyTimers - {requestKey};
    }

    method ClearRecoveryRetryTimer(dmId: string)
      modifies this
      ensures View() == old(ClearRetryTimer(View(), dmId))
    {
      if dmId !in recoveryRetryTimers {
        return;
      }
      armed := armed - {recoveryRetryTimers[dmId]};
      recoveryRetryTimers := recoveryRetryTimers - {dmId};
    }

    /** The end of a recovery. */
    method FinishRecovery(dmId: string, retryCount: nat, shouldRetry: bool)
      modifies this
      ensures View() == old(ScheduleRetry(View(), dmId, retryCount, shouldRetry))
    {
      if !shouldRetry || retryCount >= MAX_RETRIES || dmId in recoveryRetryTimers {
        return;
      }
      var timer := Arm(RetryScan(dmId, retryCount));
      recoveryRetryTimers := recoveryRetryTimers[dmId := timer];
    }

    /** A timer fires; a retry tells which round of scanning comes next. */
    method OnTimer(timer: nat) returns (round: Option<nat>)
      requires timer in armed
      modifies this
      ensures View() == old(Fired(View(), timer))
      ensures round == match old(armed[timer]) case ForgetKey(_) => None case RetryScan(_, n) => Some(n + 1)
    {
      var alarm := armed[timer];
      armed := armed - {timer};
      match alarm
      case ForgetKey(k) =>
        processedInviteKeys := processedInviteKeys - {k};
        processedInviteKeyTimers := processedInviteKeyTimers - {k};
        round := None;
      case RetryScan(dmId, n) =>
        recoveryRetryTimers := recoveryRetryTimers - {dmId};
        round := Some(n + 1);
    }

    method ClearRecoveryRetryTimers()
      modifies this
      ensures View() == old(View().(armed := armed - recoveryRetryTimers.Values, retryTimers := map[]))
    {
      ghost var was, left := View(), armed - recoveryRetryTimers.Values;
      while recoveryRetryTimers != map[]
        invariant View() == was.(armed := armed, retryTimers := recoveryRetryTimers)
        invariant armed - recoveryRetryTimers.Values == left
        decreases |recoveryRetryTimers|
      {
        var dmId :| dmId in recoveryRetryTimers;
        ClearedOne(armed, recoveryRetryTimers, dmId);
        ClearRecoveryRetryTimer(dmId);
      }
      assert armed == left;
    }

    method ClearProcessedInviteKeyTimers()
      modifies this
      ensures View() == old(View().(armed := armed - processedInviteKeyTimers.Values, keyTimers := map[]))
    {
      ghost var was, left := View(), armed - processedInviteKeyTimers.Values;
      while processedInviteKeyTimers != map[]
        invariant View() == was.(armed := armed, keyTimers := processedInviteKeyTimers)
        invariant armed - processedInviteKeyTimers.Values == left
        decreases |processedInviteKeyTimers|
      {
        var requestKey :| requestKey in processedInviteKeyTimers;
        ClearedOne(armed, processedInviteKeyTimers, requestKey);
        ClearProcessedInviteKeyTimer(requestKey);
      }
      assert armed == left;
    }

    /** Clear all timers and unsubscribe. */
    method Close()
      modifies this
      ensures View() == old(Stopped(View()))
    {
      ClearRecoveryRetryTimers();
      ClearProcessedInviteKeyTimers();
      subscribed := false;
    }
  }

  /** Clearing one timer of a map leaves as many to be cleared as before, less
      that one. */
  lemma ClearedOne(armed: map<nat, Alarm>, timers: map<string, nat>, x: string)
    requires x in timers
    ensures |timers - {x}| < |timers|
    ensures armed - {timers[x]} - (timers - {x}).Values == armed - timers.Values
  {
    assert timers.Keys == (timers - {x}).Keys + {x};
    assert |(timers - {x}).Keys| < |timers.Keys|;
    forall t
      ensures t in timers.Values <==> t == timers[x] || t in (timers - {x}).Values
    {
      if t in timers.Values && t != timers[x] {
        var y :| y in timers && timers[y] == t;
        assert y in timers - {x};
      }
    }
  }
}
