/** Scanning the recent history of a conversation, page by page and through
    every managed identity, for join requests that are still open. */
module InviteScan {
  import opened Prelude
  import opened InviteEvents
  import opened Text

  const PAGE: nat := 10

  /** What other tasks have processed; it may change between two pages. */
  datatype Processed = Processed(messageIds: set<string>, keys: set<string>)

  /** The `failure.at`-th page request fails. */
  datatype Failure = Failure(at: nat, notFound: bool)

  /** A client lists its copy of the conversation newest first. */
  datatype Client = Client(history: seq<Event>, failure: Option<Failure>)

  predicate Descending(h: seq<Event>) {
    forall i, j :: 0 <= i < j < |h| ==> h[i].sentAt >= h[j].sentAt
  }

  /** The server's strict `before` filter. */
  function OlderThan(h: seq<Event>, t: int): seq<Event> {
    if h == [] then []
    else OlderThan(h[..|h| - 1], t) + (if h[|h| - 1].sentAt < t then [h[|h| - 1]] else [])
  }

  function FirstPage(h: seq<Event>): seq<Event> { if |h| <= PAGE then h else h[..PAGE] }

  // ---- Which messages a client shows ---------------------------------------

  lemma OlderSnoc(h: seq<Event>, e: Event, t: int)
    ensures OlderThan(h + [e], t) == OlderThan(h, t) + (if e.sentAt < t then [e] else [])
  {
    assert (h + [e])[..|h|] == h;
  }

  lemma {:induction false} OlderIn(h: seq<Event>, t: int)
    ensures |OlderThan(h, t)| <= |h|
    ensures forall e :: e in OlderThan(h, t) ==> e in h && e.sentAt < t
    ensures forall e :: e in h && e.sentAt < t ==> e in OlderThan(h, t)
  {
    if h != [] {
      OlderIn(h[..|h| - 1], t);
    }
  }

  lemma {:induction false} OlderDescending(h: seq<Event>, t: int)
    requires Descending(h)
    ensures Descending(OlderThan(h, t))
  {
    if h != [] {
      var init, last := h[..|h| - 1], h[|h| - 1];
      OlderDescending(init, t);
      OlderIn(init, t);
      assert forall e :: e in OlderThan(init, t) ==> e.sentAt >= last.sentAt;
    }
  }

  lemma {:induction false} OlderTwice(h: seq<Event>, t: int, u: int)
    requires u <= t
    ensures OlderThan(OlderThan(h, t), u) == OlderThan(h, u)
  {
    if h != [] {
      var init, last := h[..|h| - 1], h[|h| - 1];
      OlderTwice(init, t, u);
      if last.sentAt < t {
        OlderSnoc(OlderThan(init, t), last, u);
      } else {
        assert OlderThan(h, t) == OlderThan(init, t);
      }
    }
  }

  lemma {:induction false} OlderShrinks(h: seq<Event>, e: Event)
    requires e in h
    ensures |OlderThan(h, e.sentAt)| < |h|
  {
    if h[|h| - 1] != e {
      OlderShrinks(h[..|h| - 1], e);
    } else {
      OlderIn(h[..|h| - 1], e.sentAt);
    }
  }

  lemma {:induction false} OlderNone(h: seq<Event>, t: int)
    requires forall i :: 0 <= i < |h| ==> h[i].sentAt >= t
    ensures OlderThan(h, t) == []
  {
    if h != [] {
      OlderNone(h[..|h| - 1], t);
    }
  }

  lemma {:induction false} OlderAll(h: seq<Event>, t: int)
    requires forall i :: 0 <= i < |h| ==> h[i].sentAt < t
    ensures OlderThan(h, t) == h
  {
    if h != [] {
      OlderAll(h[..|h| - 1], t);
      assert h == h[..|h| - 1] + [h[|h| - 1]];
    }
  }

  lemma {:induction false} OlderConcat(a: seq<Event>, b: seq<Event>, t: int)
    ensures OlderThan(a + b, t) == OlderThan(a, t) + OlderThan(b, t)
  {
    if b == [] {
      assert a + b == a;
    } else {
      var init, last := b[..|b| - 1], b[|b| - 1];
      OlderConcat(a, init, t);
      OlderSnoc(a + init, last, t);
      assert a + b == (a + init) + [last];
      ConcatAssociates(OlderThan(a, t), OlderThan(init, t), if last.sentAt < t then [last] else []);
    }
  }

  /** The messages a client without failures shows, in the order in which they
      are looked at: page after page, each page oldest first. */
  function Shown(h: seq<Event>): seq<Event>
    decreases |h|
  {
    if |h| < PAGE then Reverse(h)
    else
      OlderShrinks(h, h[PAGE - 1]);
      Reverse(h[..PAGE]) + Shown(OlderThan(h, h[PAGE - 1].sentAt))
  }

  predicate Tied(h: seq<Event>, k: nat)
    requires k + 1 < |h|
  {
    h[k].sentAt == h[k + 1].sentAt
  }

  /** No two neighbours across a page boundary share their time stamp. */
  predicate CleanPages(h: seq<Event>) {
    forall k :: 0 <= k < |h| - 1 && k % PAGE == PAGE - 1 ==> !Tied(h, k)
  }

  /** What follows a page: at most the rest of the history, all of it exactly
      when the next message is older than the page's last. */
  lemma NextPages(h: seq<Event>)
    requires Descending(h) && |h| >= PAGE
    ensures var t, rest := h[PAGE - 1].sentAt, h[PAGE..];
      && OlderThan(h, t) == OlderThan(rest, t)
      && (rest == [] || rest[0].sentAt < t ==> OlderThan(h, t) == rest)
      && (rest != [] && rest[0].sentAt == t ==> |OlderThan(h, t)| < |rest|)
  {
    var t, rest := h[PAGE - 1].sentAt, h[PAGE..];
    assert h == h[..PAGE] + rest;
    OlderConcat(h[..PAGE], rest, t);
    OlderNone(h[..PAGE], t);
    if rest == [] || rest[0].sentAt < t {
      OlderAll(rest, t);
    } else if rest[0].sentAt == t {
      OlderShrinks(rest, rest[0]);
    }
  }

  lemma ShownSplits(h: seq<Event>)
    requires |h| >= PAGE
    ensures var older := OlderThan(h, h[PAGE - 1].sentAt);
      && |older| < |h|
      && |Shown(h)| == PAGE + |Shown(older)|
      && multiset(Shown(h)) == multiset(h[..PAGE]) + multiset(Shown(older))
  {
    OlderShrinks(h, h[PAGE - 1]);
    ReverseMultiset(h[..PAGE]);
  }

  /** Every message is shown, once, exactly when no two messages with one time
      stamp face each other across a page boundary; otherwise some are left
      out. */
  ghost predicate ShownExactly(h: seq<Event>) {
    && |Shown(h)| <= |h|
    && (CleanPages(h) ==> multiset(Shown(h)) == multiset(h))
    && (!CleanPages(h) ==> |Shown(h)| < |h|)
  }

  /** The next page follows on, */
  lemma ShownOn(h: seq<Event>)
    requires Descending(h) && |h| >= PAGE && ShownExactly(h[PAGE..])
    requires h[PAGE..] == [] || h[PAGE].sentAt < h[PAGE - 1].sentAt
    ensures ShownExactly(h)
  {
    NextPages(h);
    ShownSplits(h);
    CleanTail(h);
    SplitMultiset(h, PAGE);
    assert OlderThan(h, h[PAGE - 1].sentAt) == h[PAGE..];
  }

  lemma SplitMultiset(h: seq<Event>, k: nat)
    requires k <= |h|
    ensures multiset(h) == multiset(h[..k]) + multiset(h[k..])
  {
    assert h == h[..k] + h[k..];
  }

  /** or it skips something. */
  lemma ShownSkips(h: seq<Event>)
    requires Descending(h) && |h| > PAGE && h[PAGE].sentAt == h[PAGE - 1].sentAt
    requires ShownExactly(OlderThan(h, h[PAGE - 1].sentAt))
    ensures ShownExactly(h)
  {
    NextPages(h);
    ShownSplits(h);
    assert Tied(h, PAGE - 1);
  }

  lemma {:induction false} ShownIff(h: seq<Event>)
    requires Descending(h)
    ensures ShownExactly(h)
    decreases |h|
  {
    if |h| < PAGE {
      ReverseMultiset(h);
    } else if h[PAGE..] == [] || h[PAGE].sentAt < h[PAGE - 1].sentAt {
      ShownIff(h[PAGE..]);
      ShownOn(h);
    } else {
      OlderShrinks(h, h[PAGE - 1]);
      OlderDescending(h, h[PAGE - 1].sentAt);
      ShownIff(OlderThan(h, h[PAGE - 1].sentAt));
      ShownSkips(h);
    }
  }

  lemma CleanTail(h: seq<Event>)
    requires |h| >= PAGE
    requires h[PAGE..] == [] || h[PAGE - 1].sentAt != h[PAGE].sentAt
    ensures CleanPages(h) <==> CleanPages(h[PAGE..])
  {
    var rest := h[PAGE..];
    if CleanPages(h) {
      forall k | 0 <= k < |rest| - 1 && k % PAGE == PAGE - 1
        ensures !Tied(rest, k)
      {
        assert !Tied(h, k + PAGE);
      }
    }
    if CleanPages(rest) {
      forall k | 0 <= k < |h| - 1 && k % PAGE == PAGE - 1
        ensures !Tied(h, k)
      {
        if k >= PAGE {
          assert !Tied(rest, k - PAGE);
        }
      }
    }
  }

  // ---- Keeping one event per request --------------------------------------

  /** A message, and what was processed when it was looked at. */
  datatype Sighting = Sighting(event: Event, processed: Processed)

  /** A candidate that nobody has served yet. */
  predicate Open(s: Sighting) {
    && IsCandidate(s.event)
    && s.event.messageId !in s.processed.messageIds
    && (RequestKey(s.event).Some? ==> RequestKey(s.event).value !in s.processed.keys)
  }

  /** An insertion-ordered map from slots to events. */
  datatype Slots = Slots(order: seq<string>, events: map<string, Event>)

  const EMPTY := Slots([], map[])

  function Keep(slots: Slots, s: Sighting): Slots {
    if !Open(s) then slots
    else
      var k := Slot(s.event);
      var current := if k in slots.events then Some(slots.events[k]) else None;
      Slots(if current.Some? then slots.order else slots.order + [k], slots.events[k := Prefer(current, s.event)])
  }

  function KeepAll(slots: Slots, seen: seq<Sighting>): Slots {
    if seen == [] then slots else Keep(KeepAll(slots, seen[..|seen| - 1]), seen[|seen| - 1])
  }

  lemma KeepSnoc(slots: Slots, seen: seq<Sighting>, s: Sighting)
    ensures KeepAll(slots, seen + [s]) == Keep(KeepAll(slots, seen), s)
  {
    assert (seen + [s])[..|seen|] == seen;
  }

  lemma {:induction false} KeepConcat(slots: Slots, a: seq<Sighting>, b: seq<Sighting>)
    ensures KeepAll(slots, a + b) == KeepAll(KeepAll(slots, a), b)
  {
    if b == [] {
      assert a + b == a;
    } else {
      KeepConcat(slots, a, b[..|b| - 1]);
      assert (a + b)[..|a + b| - 1] == a + b[..|b| - 1];
    }
  }

  /** The open events of one slot, in the order in which they were seen. */
  function Rivals(seen: seq<Sighting>, k: string): seq<Event> {
    if seen == [] then []
    else
      var s := seen[|seen| - 1];
      Rivals(seen[..|seen| - 1], k) + (if Open(s) && Slot(s.event) == k then [s.event] else [])
  }

  function Structured(events: seq<Event>): seq<Event> { Filter(events, (e: Event) => e.structured) }

  /** The first structured event, or else the first. */
  function Choice(events: seq<Event>): Event
    requires events != []
  {
    if Structured(events) != [] then Structured(events)[0] else events[0]
  }

  function OpenSlots(seen: seq<Sighting>): seq<string> {
    if seen == [] then []
    else
      var s := seen[|seen| - 1];
      OpenSlots(seen[..|seen| - 1]) + (if Open(s) then [Slot(s.event)] else [])
  }

  lemma ChoiceSnoc(events: seq<Event>, e: Event)
    ensures Choice(events + [e]) == Prefer(if events == [] then None else Some(Choice(events)), e)
  {
    FilterSnoc(events, e, (e: Event) => e.structured);
    if Structured(events) != [] {
      assert Structured(events)[0] in Structured(events);
    } else if events != [] {
      assert events[0] in events && !events[0].structured;
      assert (events + [e])[0] == events[0];
    }
  }

  /** Slot `k` holds its choice among the open events seen, if any. */
  predicate Chosen(slots: Slots, seen: seq<Sighting>, k: string) {
    && (k in slots.events <==> Rivals(seen, k) != [])
    && (k in slots.events ==> slots.events[k] == Choice(Rivals(seen, k)))
  }

  lemma ChosenSnoc(slots: Slots, seen: seq<Sighting>, s: Sighting, k: string)
    requires Chosen(slots, seen, k)
    ensures Chosen(Keep(slots, s), seen + [s], k)
  {
    assert (seen + [s])[..|seen|] == seen;
    if Open(s) && Slot(s.event) == k {
      ChoiceSnoc(Rivals(seen, k), s.event);
    } else {
      assert Rivals(seen + [s], k) == Rivals(seen, k);
    }
  }

  ghost predicate Ordered(slots: Slots, seen: seq<Sighting>) {
    && slots.order == Dedup(OpenSlots(seen))
    && forall k :: k in slots.events <==> k in slots.order
  }

  lemma OrderSnoc(slots: Slots, seen: seq<Sighting>, s: Sighting)
    requires Ordered(slots, seen)
    ensures Ordered(Keep(slots, s), seen + [s])
  {
    assert (seen + [s])[..|seen|] == seen;
    var ks := OpenSlots(seen);
    if Open(s) {
      assert (ks + [Slot(s.event)])[..|ks|] == ks;
    } else {
      assert OpenSlots(seen + [s]) == ks;
    }
  }

  /** What is kept: the slots in order of their first open message, and for
      each the first structured event, if there is one. */
  lemma {:induction false} KeepChooses(seen: seq<Sighting>)
    ensures Ordered(KeepAll(EMPTY, seen), seen)
    ensures forall k :: Chosen(KeepAll(EMPTY, seen), seen, k)
  {
    if seen != [] {
      var init, s := seen[..|seen| - 1], seen[|seen| - 1];
      KeepChooses(init);
      assert seen == init + [s];
      OrderSnoc(KeepAll(EMPTY, init), init, s);
      forall k
        ensures Chosen(KeepAll(EMPTY, seen), seen, k)
      {
        ChosenSnoc(KeepAll(EMPTY, init), init, s, k);
      }
    }
  }

  function Messages(slots: Slots): (r: seq<Event>)
    requires forall k :: k in slots.order ==> k in slots.events
    ensures |r| == |slots.order|
    ensures forall i :: 0 <= i < |r| ==> r[i] == slots.events[slots.order[i]]
  {
    seq(|slots.order|, i requires 0 <= i < |slots.order| => slots.events[slots.order[i]])
  }

  lemma {:induction false} RivalsMeaning(seen: seq<Sighting>, k: string, e: Event)
    ensures e in Rivals(seen, k) <==> exists i :: 0 <= i < |seen| && Open(seen[i]) && Slot(seen[i].event) == k && seen[i].event == e
  {
    if seen != [] {
      var init := seen[..|seen| - 1];
      RivalsMeaning(init, k, e);
      assert forall i :: 0 <= i < |init| ==> seen[i] == init[i];
    }
  }

  // ---- The scan -----------------------------------------------------------

  /** Result of going through pages: `fetches` counts the page requests. */
  datatype Pass = Pass(seen: seq<Sighting>, fetches: nat, shouldRetry: bool)

  function Tag(page: seq<Event>, processed: Processed): (r: seq<Sighting>)
    ensures |r| == |page|
    ensures forall i :: 0 <= i < |r| ==> r[i] == Sighting(page[i], processed)
  {
    seq(|page|, i requires 0 <= i < |page| => Sighting(page[i], processed))
  }

  predicate FailsAt(failure: Option<Failure>, n: nat) { failure.Some? && failure.value.at == n }

  /** Going through one client from its `k`-th page on; `world(n)` is what has
      been processed when the `n`-th page of the whole scan arrives. */
  function ClientPass(h: seq<Event>, failure: Option<Failure>, k: nat, world: nat -> Processed, n: nat): Pass
    decreases |h|
  {
    if FailsAt(failure, k) then Pass([], 1, !failure.value.notFound)
    else if |h| < PAGE then Pass(Tag(Reverse(h), world(n)), 1, false)
    else
      OlderShrinks(h, h[PAGE - 1]);
      var rest := ClientPass(OlderThan(h, h[PAGE - 1].sentAt), failure, k + 1, world, n + 1);
      Pass(Tag(Reverse(h[..PAGE]), world(n)) + rest.seen, rest.fetches + 1, rest.shouldRetry)
  }

  /** Going through all identities; one without a client is passed over. */
  function ScanPass(identities: seq<Option<Client>>, world: nat -> Processed): Pass {
    if identities == [] then Pass([], 0, false)
    else
      var before := ScanPass(identities[..|identities| - 1], world);
      match identities[|identities| - 1]
      case None => before
      case Some(c) =>
        var p := ClientPass(c.history, c.failure, 0, world, before.fetches);
        Pass(before.seen + p.seen, before.fetches + p.fetches, before.shouldRetry || p.shouldRetry)
  }

  /** What a client answers to a page request. */
  function ListMessages(c: Client, k: nat, before: Option<int>): Result<seq<Event>, Failure> {
    if FailsAt(c.failure, k) then Err(c.failure.value)
    else Ok(FirstPage(Remaining(c, before)))
  }

  function Remaining(c: Client, before: Option<int>): seq<Event> {
    if before.None? then c.history else OlderThan(c.history, before.value)
  }

  method KeepPage(slots: Slots, page: seq<Event>, processed: Processed) returns (r: Slots)
    ensures r == KeepAll(slots, Tag(Reverse(page), processed))
  {
    r := slots;
    var reversed := Reverse(page);
    ghost var seen := Tag(reversed, processed);
    for i := 0 to |reversed|
      invariant r == KeepAll(slots, seen[..i])
    {
      var event := reversed[i];
      KeepSnoc(slots, seen[..i], seen[i]);
      assert seen[..i + 1] == seen[..i] + [seen[i]];
      if !IsCandidate(event) || event.messageId in processed.messageIds {
        continue;
      }
      var key := RequestKey(event);
      if key.Some? && key.value in processed.keys {
        continue;
      }
      var k := if key.Some? then key.value else event.messageId;
      var current := if k in r.events then Some(r.events[k]) else None;
      r := Slots(if k in r.events then r.order else r.order + [k], r.events[k := Prefer(current, event)]);
    }
    assert seen[..|reversed|] == seen;
  }

  lemma RemainingOlder(c: Client, before: Option<int>, e: Event)
    requires e in Remaining(c, before)
    ensures OlderThan(Remaining(c, before), e.sentAt) == Remaining(c, Some(e.sentAt))
  {
    if before.Some? {
      OlderIn(c.history, before.value);
      OlderTwice(c.history, before.value, e.sentAt);
    }
  }

  /** What a scan of one client comes to, having kept `r` from its first `k`
      pages and with the pass `p` to come. */
  function Total(p: Pass, k: nat, r: Slots): (Slots, nat, bool) {
    (KeepAll(r, p.seen), k + p.fetches, p.shouldRetry)
  }

  lemma PassUnfolds(h: seq<Event>, failure: Option<Failure>, k: nat, world: nat -> Processed, n: nat)
    requires !FailsAt(failure, k) && |h| >= PAGE
    ensures |OlderThan(h, h[PAGE - 1].sentAt)| < |h|
    ensures var q := ClientPass(OlderThan(h, h[PAGE - 1].sentAt), failure, k + 1, world, n + 1);
      ClientPass(h, failure, k, world, n) == Pass(Tag(Reverse(FirstPage(h)), world(n)) + q.seen, q.fetches + 1, q.shouldRetry)
  {
    OlderShrinks(h, h[PAGE - 1]);
    assert FirstPage(h) == h[..PAGE];
  }

  /** Keeping what a page shows and then the rest is keeping all of it. */
  lemma KeepMore(r: Slots, seen: seq<Sighting>, k: nat, p: Pass, q: Pass)
    requires p == Pass(seen + q.seen, q.fetches + 1, q.shouldRetry)
    ensures Total(p, k, r) == Total(q, k + 1, KeepAll(r, seen))
  {
    KeepConcat(r, seen, q.seen);
  }

  /** A full page: keep it, and go on with what is older. */
  lemma FullPage(h: seq<Event>, failure: Option<Failure>, k: nat, world: nat -> Processed, n: nat, r: Slots)
    requires !FailsAt(failure, k) && |h| >= PAGE
    ensures |OlderThan(h, h[PAGE - 1].sentAt)| < |h|
    ensures Total(ClientPass(h, failure, k, world, n), k, r)
      == Total(ClientPass(OlderThan(h, h[PAGE - 1].sentAt), failure, k + 1, world, n + 1), k + 1,
               KeepAll(r, Tag(Reverse(FirstPage(h)), world(n))))
  {
    PassUnfolds(h, failure, k, world, n);
    KeepMore(r, Tag(Reverse(FirstPage(h)), world(n)), k, ClientPass(h, failure, k, world, n),
             ClientPass(OlderThan(h, h[PAGE - 1].sentAt), failure, k + 1, world, n + 1));
  }

  /** The last page: a failed one, or one that is not full. */
  lemma LastPage(h: seq<Event>, failure: Option<Failure>, k: nat, world: nat -> Processed, n: nat, r: Slots)
    requires FailsAt(failure, k) || |h| < PAGE
    ensures Total(ClientPass(h, failure, k, world, n), k, r) ==
      if FailsAt(failure, k) then (r, k + 1, !failure.value.notFound)
      else (KeepAll(r, Tag(Reverse(FirstPage(h)), world(n))), k + 1, false)
  {
  }

  /** What the scan of a client comes to from page `k` on. */
  function Ahead(c: Client, before: Option<int>, k: nat, world: nat -> Processed, n: nat, r: Slots): (Slots, nat, bool) {
    Total(ClientPass(Remaining(c, before), c.failure, k, world, n), k, r)
  }

  /** One turn of the loop over pages. */
  method ScanPage(c: Client, k: nat, world: nat -> Processed, n: nat, before: Option<int>, r: Slots)
    returns (done: bool, kept: Slots, shouldRetry: bool, next: Option<int>)
    ensures var total := Ahead(c, before, k, world, n, r);
      if done then total == (kept, k + 1, shouldRetry)
      else
        && !shouldRetry && |Remaining(c, next)| < |Remaining(c, before)|
        && total == Ahead(c, next, k + 1, world, n + 1, kept)
  {
    var listed := ListMessages(c, k, before);
    if listed.Err? {
      LastPage(Remaining(c, before), c.failure, k, world, n, r);
      return true, r, !listed.error.notFound, before;
    }
    var page := listed.value;
    kept := KeepPage(r, page, world(n));
    if |page| < PAGE {
      LastPage(Remaining(c, before), c.failure, k, world, n, r);
      return true, kept, false, before;
    }
    FullPage(Remaining(c, before), c.failure, k, world, n, r);
    assert page[PAGE - 1] == Remaining(c, before)[PAGE - 1];
    RemainingOlder(c, before, Remaining(c, before)[PAGE - 1]);
    return false, kept, false, Some(page[PAGE - 1].sentAt);
  }

  method ScanClient(c: Client, world: nat -> Processed, n: nat, slots: Slots) returns (r: Slots, fetches: nat, shouldRetry: bool)
    ensures (r, fetches, shouldRetry) == Ahead(c, None, 0, world, n, slots)
  {
    r, fetches, shouldRetry := slots, 0, false;
    var before: Option<int> := None;
    var now := n;
    var done := false;
    ghost var total := Ahead(c, None, 0, world, n, slots);
    while !done
      invariant done ==> total == (r, fetches, shouldRetry)
      invariant !done ==> total == Ahead(c, before, fetches, world, now, r)
      decreases !done, |Remaining(c, before)|
    {
      done, r, shouldRetry, before := ScanPage(c, fetches, world, now, before, r);
      fetches, now := fetches + 1, now + 1;
    }
  }

  method Scan(identities: seq<Option<Client>>, world: nat -> Processed) returns (messages: seq<Event>, shouldRetry: bool)
    ensures messages == Found(ScanPass(identities, world).seen)
    ensures shouldRetry == ScanPass(identities, world).shouldRetry
  {
    var slots, fetches := EMPTY, 0;
    shouldRetry := false;
    for i := 0 to |identities|
      invariant var p := ScanPass(identities[..i], world);
        slots == KeepAll(EMPTY, p.seen) && fetches == p.fetches && shouldRetry == p.shouldRetry
    {
      assert identities[..i + 1][..i] == identities[..i];
      if identities[i].Some? {
        var c := identities[i].value;
        var n, retry;
        KeepConcat(EMPTY, ScanPass(identities[..i], world).seen, ClientPass(c.history, c.failure, 0, world, fetches).seen);
        slots, n, retry := ScanClient(c, world, fetches, slots);
        fetches := fetches + n;
        shouldRetry := shouldRetry || retry;
      }
    }
    assert identities[..|identities|] == identities;
    KeepChooses(ScanPass(identities, world).seen);
    messages := Messages(slots);
  }

  // ---- What a scan finds --------------------------------------------------

  function EventsOf(seen: seq<Sighting>): (r: seq<Event>)
    ensures |r| == |seen| && forall i :: 0 <= i < |r| ==> r[i] == seen[i].event
  {
    seq(|seen|, i requires 0 <= i < |seen| => seen[i].event)
  }

  /** All messages all clients have. */
  function AllMessages(identities: seq<Option<Client>>): multiset<Event> {
    if identities == [] then multiset{}
    else
      AllMessages(identities[..|identities| - 1])
      + match identities[|identities| - 1] case None => multiset{} case Some(c) => multiset(c.history)
  }

  /** The listing a scan relies on: newest first, no ties across pages, and no
      failing page. */
  predicate Reliable(c: Client) { c.failure.None? && Descending(c.history) && CleanPages(c.history) }

  predicate AllReliable(identities: seq<Option<Client>>) {
    forall i :: 0 <= i < |identities| && identities[i].Some? ==> Reliable(identities[i].value)
  }

  lemma {:induction false} PassShows(h: seq<Event>, k: nat, world: nat -> Processed, n: nat)
    ensures var p := ClientPass(h, None, k, world, n);
      EventsOf(p.seen) == Shown(h) && !p.shouldRetry
    decreases |h|
  {
    if |h| >= PAGE {
      var older := OlderThan(h, h[PAGE - 1].sentAt);
      OlderShrinks(h, h[PAGE - 1]);
      PassShows(older, k + 1, world, n + 1);
      EventsConcat(Tag(Reverse(h[..PAGE]), world(n)), ClientPass(older, None, k + 1, world, n + 1).seen);
      assert EventsOf(Tag(Reverse(h[..PAGE]), world(n))) == Reverse(h[..PAGE]);
    }
  }

  lemma EventsConcat(a: seq<Sighting>, b: seq<Sighting>)
    ensures EventsOf(a + b) == EventsOf(a) + EventsOf(b)
  {
  }

  /** A scan looks at every message of every client once, and asks for no
      retry. */
  lemma {:induction false} ScanSeesAll(identities: seq<Option<Client>>, world: nat -> Processed)
    requires AllReliable(identities)
    ensures multiset(EventsOf(ScanPass(identities, world).seen)) == AllMessages(identities)
    ensures !ScanPass(identities, world).shouldRetry
  {
    if identities != [] {
      var last := |identities| - 1;
      ScanSeesAll(identities[..last], world);
      if identities[last].Some? {
        var c := identities[last].value;
        var before := ScanPass(identities[..last], world);
        PassShows(c.history, 0, world, before.fetches);
        ShownIff(c.history);
        EventsConcat(before.seen, ClientPass(c.history, c.failure, 0, world, before.fetches).seen);
      }
    }
  }

  // ---- Pages that fail ------------------------------------------------------

  /** How many pages a client is asked for if none fails. */
  function Pages(h: seq<Event>): nat
    decreases |h|
  {
    if |h| < PAGE then 1
    else
      OlderShrinks(h, h[PAGE - 1]);
      1 + Pages(OlderThan(h, h[PAGE - 1].sentAt))
  }

  lemma {:induction false} PassPages(h: seq<Event>, k: nat, world: nat -> Processed, n: nat)
    ensures ClientPass(h, None, k, world, n).fetches == Pages(h) && !ClientPass(h, None, k, world, n).shouldRetry
    decreases |h|
  {
    if |h| >= PAGE {
      OlderShrinks(h, h[PAGE - 1]);
      PassPages(OlderThan(h, h[PAGE - 1].sentAt), k + 1, world, n + 1);
    }
  }

  /** A failing page ends the pass over its client: what the pages before it
      showed is kept, ten messages each, and a retry is wanted unless the
      conversation was not found. A failure past the last page is not met. */
  ghost predicate CutOff(whole: Pass, cut: Pass, f: Failure, k: nat) {
    if k <= f.at < k + whole.fetches then
      && cut.fetches == f.at - k + 1 && (cut.shouldRetry <==> !f.notFound)
      && 10 * (f.at - k) <= |whole.seen| && cut.seen == whole.seen[..10 * (f.at - k)]
    else cut == whole
  }

  lemma {:induction false} FailureCuts(h: seq<Event>, f: Failure, k: nat, world: nat -> Processed, n: nat)
    ensures CutOff(ClientPass(h, None, k, world, n), ClientPass(h, Some(f), k, world, n), f, k)
    decreases |h|
  {
    if f.at != k && |h| >= PAGE {
      var older, first := OlderThan(h, h[PAGE - 1].sentAt), Tag(Reverse(h[..PAGE]), world(n));
      OlderShrinks(h, h[PAGE - 1]);
      FailureCuts(older, f, k + 1, world, n + 1);
      var rest := ClientPass(older, None, k + 1, world, n + 1);
      if k < f.at < k + 1 + rest.fetches {
        assert (first + rest.seen)[..10 * (f.at - k)] == first + rest.seen[..10 * (f.at - k - 1)];
      }
    }
  }

  /** This client meets a failure that may pass. */
  predicate FailsForNow(identity: Option<Client>) {
    && identity.Some? && identity.value.failure.Some?
    && !identity.value.failure.value.notFound && identity.value.failure.value.at < Pages(identity.value.history)
  }

  /** A scan asks for a retry exactly when some client fails for now; an
      identity without a client, or with nothing to be found, does not. */
  lemma {:induction false} ScanRetryIff(identities: seq<Option<Client>>, world: nat -> Processed)
    ensures ScanPass(identities, world).shouldRetry <==> exists i :: 0 <= i < |identities| && FailsForNow(identities[i])
  {
    if identities != [] {
      var init, last := identities[..|identities| - 1], identities[|identities| - 1];
      ScanRetryIff(init, world);
      if last.Some? {
        ClientRetryIff(last.value, world, ScanPass(init, world).fetches);
      }
      assert identities == init + [last];
      if exists i :: 0 <= i < |init| && FailsForNow(init[i]) {
        var i :| 0 <= i < |init| && FailsForNow(init[i]);
        assert identities[i] == init[i];
      }
      assert forall i :: 0 <= i < |identities| ==> identities[i] == if i < |init| then init[i] else last;
    }
  }

  lemma ClientRetryIff(c: Client, world: nat -> Processed, n: nat)
    ensures ClientPass(c.history, c.failure, 0, world, n).shouldRetry <==> FailsForNow(Some(c))
  {
    PassPages(c.history, 0, world, n);
    if c.failure.Some? {
      FailureCuts(c.history, c.failure.value, 0, world, n);
    }
  }

  /** Looked at when one of the pages from `lo` up to `hi` arrived. */
  ghost predicate SeenDuring(s: Sighting, world: nat -> Processed, lo: nat, hi: nat) {
    exists n :: lo <= n < hi && s.processed == world(n)
  }

  lemma {:induction false} ClientSees(h: seq<Event>, failure: Option<Failure>, k: nat, world: nat -> Processed, n: nat, i: nat)
    requires i < |ClientPass(h, failure, k, world, n).seen|
    ensures SeenDuring(ClientPass(h, failure, k, world, n).seen[i], world, n, n + ClientPass(h, failure, k, world, n).fetches)
    decreases |h|
  {
    if |h| >= PAGE && i >= PAGE {
      var t := h[PAGE - 1].sentAt;
      OlderShrinks(h, h[PAGE - 1]);
      ClientSees(OlderThan(h, t), failure, k + 1, world, n + 1, i - PAGE);
    } else {
      assert ClientPass(h, failure, k, world, n).seen[i].processed == world(n);
    }
  }

  /** Each message is judged by what had been processed when its page arrived. */
  lemma {:induction false} ScanSees(identities: seq<Option<Client>>, world: nat -> Processed, i: nat)
    requires i < |ScanPass(identities, world).seen|
    ensures SeenDuring(ScanPass(identities, world).seen[i], world, 0, ScanPass(identities, world).fetches)
  {
    var last := |identities| - 1;
    var before := ScanPass(identities[..last], world);
    if i < |before.seen| {
      ScanSees(identities[..last], world, i);
    } else {
      var c := identities[last].value;
      ClientSees(c.history, c.failure, 0, world, before.fetches, i - |before.seen|);
    }
  }

  lemma ChoiceIn(events: seq<Event>)
    requires events != []
    ensures Choice(events) in events
    ensures Choice(events).structured <==> exists e :: e in events && e.structured
  {
    if Structured(events) != [] {
      assert Structured(events)[0] in Structured(events);
    }
  }

  /** What is kept for a slot was seen, open, for that slot. */
  lemma KeptWasSeen(seen: seq<Sighting>, k: string) returns (i: nat)
    requires k in KeepAll(EMPTY, seen).events
    ensures i < |seen| && Open(seen[i]) && Slot(seen[i].event) == k && seen[i].event == KeepAll(EMPTY, seen).events[k]
  {
    var e := KeepAll(EMPTY, seen).events[k];
    KeepChooses(seen);
    assert Chosen(KeepAll(EMPTY, seen), seen, k);
    ChoiceIn(Rivals(seen, k));
    RivalsMeaning(seen, k, e);
    i :| 0 <= i < |seen| && Open(seen[i]) && Slot(seen[i].event) == k && seen[i].event == e;
  }

  /** An open message that was seen has its slot kept, by a structured event if
      it is structured itself. */
  lemma SeenIsKept(seen: seq<Sighting>, i: nat)
    requires i < |seen| && Open(seen[i])
    ensures var slots, k := KeepAll(EMPTY, seen), Slot(seen[i].event);
      k in slots.order && k in slots.events && (seen[i].event.structured ==> slots.events[k].structured)
  {
    var k := Slot(seen[i].event);
    KeepChooses(seen);
    RivalsMeaning(seen, k, seen[i].event);
    assert Chosen(KeepAll(EMPTY, seen), seen, k);
    ChoiceIn(Rivals(seen, k));
  }

  /** The messages a scan returns, once KeepChooses has shown them defined. */
  function Found(seen: seq<Sighting>): seq<Event> {
    KeepChooses(seen);
    Messages(KeepAll(EMPTY, seen))
  }

  lemma FoundOnce(seen: seq<Sighting>, i: nat, j: nat)
    requires i < j < |Found(seen)|
    ensures Slot(Found(seen)[i]) != Slot(Found(seen)[j])
    ensures RequestKey(Found(seen)[i]).Some? ==> RequestKey(Found(seen)[i]) != RequestKey(Found(seen)[j])
    ensures RequestKey(Found(seen)[i]).None? && RequestKey(Found(seen)[j]).None? ==>
      Found(seen)[i].messageId != Found(seen)[j].messageId
  {
    KeepChooses(seen);
    var slots := KeepAll(EMPTY, seen);
    var a := KeptWasSeen(seen, slots.order[i]);
    var b := KeptWasSeen(seen, slots.order[j]);
  }

  lemma FoundWasSeen(seen: seq<Sighting>, e: Event) returns (i: nat)
    requires e in Found(seen)
    ensures i < |seen| && Open(seen[i]) && seen[i].event == e
  {
    KeepChooses(seen);
    var j :| 0 <= j < |Found(seen)| && Found(seen)[j] == e;
    i := KeptWasSeen(seen, KeepAll(EMPTY, seen).order[j]);
  }

  lemma SeenIsFound(seen: seq<Sighting>, i: nat) returns (m: Event)
    requires i < |seen| && Open(seen[i])
    ensures m in Found(seen) && Slot(m) == Slot(seen[i].event) && (seen[i].event.structured ==> m.structured)
  {
    KeepChooses(seen);
    SeenIsKept(seen, i);
    var slots, k := KeepAll(EMPTY, seen), Slot(seen[i].event);
    var j :| 0 <= j < |slots.order| && slots.order[j] == k;
    m := Found(seen)[j];
    var a := KeptWasSeen(seen, k);
  }

  /** With reliable listings a scan looks at every message once, and yields
      exactly one event for each request that was open when one of its messages
      was looked at, a structured one whenever any of those is structured. The
      processed sets may change between any two pages. */
  lemma OneEventPerRequest(identities: seq<Option<Client>>, world: nat -> Processed)
    requires AllReliable(identities)
    ensures var pass := ScanPass(identities, world);
      var messages := Found(pass.seen);
      && multiset(EventsOf(pass.seen)) == AllMessages(identities)
      && (forall s :: s in pass.seen ==> SeenDuring(s, world, 0, pass.fetches))
      && (forall i, j :: 0 <= i < j < |messages| ==> Slot(messages[i]) != Slot(messages[j]))
      && (forall e :: e in messages ==> exists s :: s in pass.seen && Open(s) && s.event == e)
      && (forall s :: s in pass.seen && Open(s) ==>
            exists m :: m in messages && Slot(m) == Slot(s.event) && (s.event.structured ==> m.structured))
  {
    var seen := ScanPass(identities, world).seen;
    var messages := Found(seen);
    ScanSeesAll(identities, world);
    forall s | s in seen
      ensures SeenDuring(s, world, 0, ScanPass(identities, world).fetches)
    {
      var i :| 0 <= i < |seen| && seen[i] == s;
      ScanSees(identities, world, i);
    }
    forall i, j | 0 <= i < j < |messages|
      ensures Slot(messages[i]) != Slot(messages[j])
    {
      FoundOnce(seen, i, j);
    }
    forall e | e in messages
      ensures exists s :: s in seen && Open(s) && s.event == e
    {
      var i := FoundWasSeen(seen, e);
      assert seen[i] in seen;
    }
    forall s | s in seen && Open(s)
      ensures exists m :: m in messages && Slot(m) == Slot(s.event) && (s.event.structured ==> m.structured)
    {
      var i :| 0 <= i < |seen| && seen[i] == s;
      var m := SeenIsFound(seen, i);
    }
  }

  lemma SightingOf(identities: seq<Option<Client>>, world: nat -> Processed, e: Event) returns (n: nat)
    requires AllReliable(identities) && e in AllMessages(identities)
    ensures n < ScanPass(identities, world).fetches && Sighting(e, world(n)) in ScanPass(identities, world).seen
  {
    OneEventPerRequest(identities, world);
    var pass := ScanPass(identities, world);
    assert e in EventsOf(pass.seen);
    var i :| 0 <= i < |pass.seen| && EventsOf(pass.seen)[i] == e;
    assert SeenDuring(pass.seen[i], world, 0, pass.fetches);
    n :| 0 <= n < pass.fetches && pass.seen[i].processed == world(n);
    assert pass.seen[i] == Sighting(e, world(n));
  }

  /** Neither the message nor its request has been processed. */
  predicate Unprocessed(e: Event, p: Processed) {
    e.messageId !in p.messageIds && forall k :: k in p.keys ==> RequestKey(e) != Some(k)
  }

  /** In particular no request is missed that stays open during the scan, */
  lemma OpenThroughout(identities: seq<Option<Client>>, world: nat -> Processed, e: Event)
    requires AllReliable(identities) && e in AllMessages(identities)
    requires IsCandidate(e) && forall n :: 0 <= n < ScanPass(identities, world).fetches ==> Unprocessed(e, world(n))
    ensures exists m :: m in Found(ScanPass(identities, world).seen) && Slot(m) == Slot(e) && (e.structured ==> m.structured)
  {
    var n := SightingOf(identities, world, e);
    OneEventPerRequest(identities, world);
    assert Open(Sighting(e, world(n)));
  }

  /** and none is reported that was not open when its page arrived. */
  lemma FoundWasOpen(identities: seq<Option<Client>>, world: nat -> Processed, e: Event) returns (n: nat)
    requires e in Found(ScanPass(identities, world).seen)
    ensures IsCandidate(e) && n < ScanPass(identities, world).fetches && Unprocessed(e, world(n))
  {
    var pass := ScanPass(identities, world);
    var i := FoundWasSeen(pass.seen, e);
    ScanSees(identities, world, i);
    n :| 0 <= n < pass.fetches && pass.seen[i].processed == world(n);
    assert pass.seen[i] == Sighting(e, world(n));
  }

  // ---- A listing that loses a message -----------------------------------------

  /** Eleven messages of one moment: one more than a page holds. */
  const TIED: seq<Event> :=
    seq(PAGE + 1, i requires 0 <= i < PAGE + 1 => Event(PrintNat(i), "sender", true, JoinRequest(PrintNat(i)), 0, false))

  /** The eleventh is never looked at. */
  lemma TiedLosesOne()
    ensures Descending(TIED) && !CleanPages(TIED)
    ensures IsCandidate(TIED[PAGE]) && TIED[PAGE] !in Shown(TIED)
  {
    assert Tied(TIED, PAGE - 1);
    OlderNone(TIED, 0);
    assert OlderThan(TIED, TIED[PAGE - 1].sentAt) == [];
    var page := TIED[..PAGE];
    assert Shown(TIED) == Reverse(page) + Shown([]);
    assert PrintNat(10) == PrintNat(1) + PrintNat(0);
    forall i | 0 <= i < PAGE
      ensures page[i] != TIED[PAGE]
    {
      assert |PrintNat(i)| == 1 && |PrintNat(10)| == 2;
    }
  }
}
