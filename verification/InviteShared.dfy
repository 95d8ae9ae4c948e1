/** State shared by all invocations of the invite listener, and what each
    uninterrupted stretch of code does to it. */
module InviteShared {
  import opened InviteEvents

  const MAX_RETRIES: nat := 3

  /** What an armed timer does when it fires. */
  datatype Alarm = ForgetKey(key: string) | RetryScan(dmId: string, retryCount: nat)

  /** Both timer maps name timers by number; `armed` holds those that have
      neither fired nor been cleared. */
  datatype Shared = Shared(
    messageIds: set<string>,
    keys: set<string>,
    inflightIds: set<string>,
    inflightKeys: set<string>,
    retryTimers: map<string, nat>,
    keyTimers: map<string, nat>,
    armed: map<nat, Alarm>,
    nextTimer: nat,
    subscribed: bool)

  const START := Shared({}, {}, {}, {}, map[], map[], map[], 0, true)

  function KeysOf(e: Event): set<string> {
    if RequestKey(e).Some? then {RequestKey(e).value} else {}
  }

  // ---- Stretches of code --------------------------------------------------

  /** No other invocation has served, or is serving, this request. */
  predicate Admits(s: Shared, e: Event) {
    && e.messageId !in s.messageIds && e.messageId !in s.inflightIds
    && (RequestKey(e).Some? ==> RequestKey(e).value !in s.keys && RequestKey(e).value !in s.inflightKeys)
  }

  function Enter(s: Shared, e: Event): Shared {
    s.(inflightIds := s.inflightIds + {e.messageId}, inflightKeys := s.inflightKeys + KeysOf(e))
  }

  function Leave(s: Shared, e: Event): Shared {
    s.(inflightIds := s.inflightIds - {e.messageId}, inflightKeys := s.inflightKeys - KeysOf(e))
  }

  function ClearKeyTimer(s: Shared, key: string): Shared {
    if key !in s.keyTimers then s
    else s.(armed := s.armed - {s.keyTimers[key]}, keyTimers := s.keyTimers - {key})
  }

  function ClearRetryTimer(s: Shared, dmId: string): Shared {
    if dmId !in s.retryTimers then s
    else s.(armed := s.armed - {s.retryTimers[dmId]}, retryTimers := s.retryTimers - {dmId})
  }

  function MarkKey(s: Shared, key: string): Shared {
    var s1 := ClearKeyTimer(s.(keys := s.keys + {key}), key);
    s1.(keyTimers := s1.keyTimers[key := s1.nextTimer],
        armed := s1.armed[s1.nextTimer := ForgetKey(key)],
        nextTimer := s1.nextTimer + 1)
  }

  function Accept(s: Shared, e: Event): Shared {
    var s1 := s.(messageIds := s.messageIds + {e.messageId});
    if RequestKey(e).Some? then MarkKey(s1, RequestKey(e).value) else s1
  }

  function ScheduleRetry(s: Shared, dmId: string, retryCount: nat, shouldRetry: bool): Shared {
    if !shouldRetry || retryCount >= MAX_RETRIES || dmId in s.retryTimers then s
    else s.(retryTimers := s.retryTimers[dmId := s.nextTimer],
            armed := s.armed[s.nextTimer := RetryScan(dmId, retryCount)],
            nextTimer := s.nextTimer + 1)
  }

  /** What timer `t` does to the shared state; a retry also starts a scan. */
  function Fired(s: Shared, t: nat): Shared
    requires t in s.armed
  {
    var s1 := s.(armed := s.armed - {t});
    match s.armed[t]
    case ForgetKey(k) => s1.(keys := s1.keys - {k}, keyTimers := s1.keyTimers - {k})
    case RetryScan(dmId, _) => s1.(retryTimers := s1.retryTimers - {dmId})
  }

  /** Clear every timer and unsubscribe; nothing that is running is stopped. */
  function Stopped(s: Shared): Shared {
    s.(armed := s.armed - s.retryTimers.Values - s.keyTimers.Values,
       retryTimers := map[], keyTimers := map[], subscribed := false)
  }

  // ---- Timers -------------------------------------------------------------

  /** The maps and the armed timers agree: a key or a conversation has at most
      one timer, and a retry is armed only below the limit. */
  ghost predicate TimersAgree(s: Shared) {
    && (forall k :: k in s.keyTimers ==> s.keyTimers[k] in s.armed && s.armed[s.keyTimers[k]] == ForgetKey(k))
    && (forall d :: d in s.retryTimers ==> s.retryTimers[d] in s.armed && s.armed[s.retryTimers[d]].RetryScan?
                                           && s.armed[s.retryTimers[d]].dmId == d)
    && (forall t :: t in s.armed ==> t < s.nextTimer && Registered(s, t))
  }

  predicate Registered(s: Shared, t: nat)
    requires t in s.armed
  {
    match s.armed[t]
    case ForgetKey(k) => k in s.keyTimers && s.keyTimers[k] == t
    case RetryScan(d, n) => d in s.retryTimers && s.retryTimers[d] == t && n < MAX_RETRIES
  }

  /** A processed key is forgotten by its timer; once the timers have been
      cleared, some keys are never forgotten. */
  ghost predicate KeysTimed(s: Shared) {
    && s.keyTimers.Keys <= s.keys
    && (s.subscribed ==> s.keyTimers.Keys == s.keys)
  }

  ghost predicate SharedInv(s: Shared) { TimersAgree(s) && KeysTimed(s) }

  lemma ClearKeyKeeps(s: Shared, key: string)
    requires TimersAgree(s)
    ensures TimersAgree(ClearKeyTimer(s, key)) && key !in ClearKeyTimer(s, key).keyTimers
  {
  }

  lemma ArmKeyKeeps(s: Shared, key: string)
    requires TimersAgree(s) && key !in s.keyTimers
    ensures TimersAgree(s.(keyTimers := s.keyTimers[key := s.nextTimer],
                           armed := s.armed[s.nextTimer := ForgetKey(key)],
                           nextTimer := s.nextTimer + 1))
  {
  }

  lemma MarkKeyKeeps(s: Shared, key: string)
    requires SharedInv(s)
    ensures SharedInv(MarkKey(s, key))
  {
    var added := s.(keys := s.keys + {key});
    ClearKeyKeeps(added, key);
    ArmKeyKeeps(ClearKeyTimer(added, key), key);
  }

  lemma AcceptKeeps(s: Shared, e: Event)
    requires SharedInv(s)
    ensures SharedInv(Accept(s, e))
  {
    var s1 := s.(messageIds := s.messageIds + {e.messageId});
    assert SharedInv(s1);
    if RequestKey(e).Some? {
      MarkKeyKeeps(s1, RequestKey(e).value);
    }
  }

  lemma ScheduleRetryKeeps(s: Shared, dmId: string, retryCount: nat, shouldRetry: bool)
    requires SharedInv(s)
    ensures SharedInv(ScheduleRetry(s, dmId, retryCount, shouldRetry))
  {
  }

  lemma FiredKeeps(s: Shared, t: nat)
    requires SharedInv(s) && t in s.armed
    ensures SharedInv(Fired(s, t))
  {
  }

  /** After stopping, no timer is left armed. */
  lemma StoppedKeeps(s: Shared)
    requires SharedInv(s)
    ensures SharedInv(Stopped(s)) && Stopped(s).armed == map[]
  {
    forall t | t in s.armed
      ensures t in s.retryTimers.Values + s.keyTimers.Values
    {
      assert Registered(s, t);
    }
  }
}
