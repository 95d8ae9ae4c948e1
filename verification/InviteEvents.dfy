/** Join requests as they arrive in conversations, and one attempt to serve
    such a request through the managed identities. */
module InviteEvents {
  import opened Prelude
  import opened Text

  /** Plain text is given trimmed. */
  datatype Content = JoinRequest(inviteSlug: string) | Plain(text: string) | Opaque

  /** `sender` is given in lower case; `structured` says that the content type
      is the join-request one. */
  datatype Event = Event(
    messageId: string,
    sender: string,
    structured: bool,
    content: Content,
    sentAt: int,
    historical: bool)

  function SlugOf(c: Content): string {
    match c
    case JoinRequest(s) => s
    case Plain(s) => s
    case Opaque => ""
  }

  /** Identifies a request by its sender and invite. */
  function RequestKey(e: Event): Option<string> {
    var slug := SlugOf(e.content);
    if slug == "" then None else Some(e.sender + ":" + slug)
  }

  /** Length in UTF-16 code units. */
  function Units(s: string): nat {
    if s == "" then 0 else Units(s[..|s| - 1]) + (if s[|s| - 1] as int < 0x1_0000 then 1 else 2)
  }

  predicate IsCandidate(e: Event) {
    !e.historical && (e.structured || (e.content.Plain? && Units(e.content.text) >= 50 && ' ' !in e.content.text))
  }

  /** Where a scan keeps an event. */
  function Slot(e: Event): string {
    var key := RequestKey(e);
    if key.Some? then key.value else e.messageId
  }

  function Prefer(current: Option<Event>, candidate: Event): Event {
    if current.None? then candidate
    else if candidate.structured && !current.value.structured then candidate
    else current.value
  }

  /** Two requests share a key exactly when one sender uses one invite, in
      whatever form it is sent. */
  lemma RequestKeyInjective(e: Event, f: Event)
    requires ':' !in e.sender && ':' !in f.sender
    requires RequestKey(e).Some? && RequestKey(f).Some?
    ensures RequestKey(e) == RequestKey(f) <==> e.sender == f.sender && SlugOf(e.content) == SlugOf(f.content)
  {
    SplitFirst(e.sender, ':', SlugOf(e.content));
    SplitFirst(f.sender, ':', SlugOf(f.content));
    JoinSplit(SlugOf(e.content), ':');
    JoinSplit(SlugOf(f.content), ':');
    if RequestKey(e) == RequestKey(f) {
      var whole := RequestKey(e).value;
      assert whole == e.sender + [':'] + SlugOf(e.content) == f.sender + [':'] + SlugOf(f.content);
      assert Split(whole, ':')[1..] == Split(SlugOf(e.content), ':') == Split(SlugOf(f.content), ':');
    }
  }

  /** A structured and a plain request for one invite by one sender share their
      key; only an empty or unreadable request has none. */
  lemma FormsShareKey(e: Event, f: Event, slug: string)
    requires e.sender == f.sender && e.content == JoinRequest(slug) && f.content == Plain(slug)
    ensures RequestKey(e) == RequestKey(f)
    ensures RequestKey(e).Some? <==> slug != ""
    ensures RequestKey(e.(content := Opaque)).None?
  {
  }

  // ---- One dispatch -------------------------------------------------------

  /** What trying one identity leads to. */
  datatype Attempt = NoInbox | NoClient | NoWalletKey | Accepted(groupId: string) | Failed(category: string)

  datatype Outcome = Outcome(result: Option<Result<nat, string>>, shouldRetry: bool)

  predicate Retryable(category: string) {
    category !in {"validation", "permission", "auth"}
  }

  /** An identity that is not ready, or one whose failure may pass. */
  predicate Transient(a: Attempt) {
    match a
    case Failed(category) => Retryable(category)
    case Accepted(_) => false
    case _ => true
  }

  predicate AnyAccepted(attempts: seq<Attempt>) { exists i :: 0 <= i < |attempts| && attempts[i].Accepted? }

  predicate AnyFailed(attempts: seq<Attempt>) { exists i :: 0 <= i < |attempts| && attempts[i].Failed? }

  predicate AnyTransient(attempts: seq<Attempt>) { exists i :: 0 <= i < |attempts| && Transient(attempts[i]) }

  /** The last failure among the attempts has this category. */
  predicate LastFailure(attempts: seq<Attempt>, category: string) {
    exists k :: 0 <= k < |attempts| && attempts[k] == Failed(category) && !AnyFailed(attempts[k + 1..])
  }

  /** What the outcome of a dispatch is for the attempts made. */
  predicate Explains(attempts: seq<Attempt>, r: Outcome) {
    match r.result
    case Some(Ok(i)) => i < |attempts| && attempts[i].Accepted? && !AnyAccepted(attempts[..i]) && !r.shouldRetry
    case Some(Err(category)) => !AnyAccepted(attempts) && LastFailure(attempts, category) && r.shouldRetry == AnyTransient(attempts)
    case None => !AnyAccepted(attempts) && !AnyFailed(attempts) && r.shouldRetry == AnyTransient(attempts)
  }

  lemma OneMore(attempts: seq<Attempt>, i: nat)
    requires i < |attempts|
    ensures AnyAccepted(attempts[..i + 1]) == (AnyAccepted(attempts[..i]) || attempts[i].Accepted?)
    ensures AnyFailed(attempts[..i + 1]) == (AnyFailed(attempts[..i]) || attempts[i].Failed?)
    ensures AnyTransient(attempts[..i + 1]) == (AnyTransient(attempts[..i]) || Transient(attempts[i]))
  {
    assert attempts[..i + 1] == attempts[..i] + [attempts[i]];
    assert attempts[..i + 1][i] == attempts[i];
    assert forall k :: 0 <= k < i ==> attempts[..i + 1][k] == attempts[..i][k];
  }

  lemma LastFailureKept(attempts: seq<Attempt>, i: nat, category: string)
    requires i < |attempts|
    ensures attempts[i] == Failed(category) ==> LastFailure(attempts[..i + 1], category)
    ensures LastFailure(attempts[..i], category) && !attempts[i].Failed? ==> LastFailure(attempts[..i + 1], category)
  {
    var before, after := attempts[..i], attempts[..i + 1];
    if attempts[i] == Failed(category) {
      assert after[i] == Failed(category) && after[i + 1..] == [];
    } else if LastFailure(before, category) && !attempts[i].Failed? {
      var k :| 0 <= k < |before| && before[k] == Failed(category) && !AnyFailed(before[k + 1..]);
      assert after == before + [attempts[i]];
      NoneFailedSnoc(before, attempts[i], k + 1);
      assert after[k] == Failed(category);
    }
  }

  lemma NoneFailedSnoc(attempts: seq<Attempt>, a: Attempt, k: nat)
    requires k <= |attempts| && !AnyFailed(attempts[k..]) && !a.Failed?
    ensures !AnyFailed((attempts + [a])[k..])
  {
    var rest := (attempts + [a])[k..];
    forall i | 0 <= i < |rest|
      ensures !rest[i].Failed?
    {
      if i < |attempts[k..]| {
        assert rest[i] == attempts[k..][i];
      } else {
        assert rest[i] == a;
      }
    }
  }

  /** Try the identities in turn until one accepts; `Ok(i)` names it. */
  method Dispatch(candidate: bool, attempts: seq<Attempt>) returns (r: Outcome)
    ensures if candidate then Explains(attempts, r) else r == Outcome(None, false)
  {
    if !candidate {
      return Outcome(None, false);
    }
    var lastError: Option<string> := None;
    var shouldRetry := false;
    for i := 0 to |attempts|
      invariant Explains(attempts[..i], Outcome(if lastError.Some? then Some(Err(lastError.value)) else None, shouldRetry))
    {
      OneMore(attempts, i);
      if attempts[i].Accepted? {
        return Outcome(Some(Ok(i)), false);
      }
      if lastError.Some? {
        LastFailureKept(attempts, i, lastError.value);
      }
      if attempts[i].Failed? {
        LastFailureKept(attempts, i, attempts[i].category);
        lastError := Some(attempts[i].category);
        if Retryable(attempts[i].category) {
          shouldRetry := true;
        }
      } else {
        shouldRetry := true;
      }
    }
    assert attempts[..|attempts|] == attempts;
    r := Outcome(if lastError.Some? then Some(Err(lastError.value)) else None, shouldRetry);
  }
}
