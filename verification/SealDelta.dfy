/** The difference between two seals' permission sets. */
module SealDelta {
  import opened Prelude
  import opened Scopes

  datatype Side = Allow | Deny

  datatype Change = Change(scope: Scope, from: Side, to: Side)

  datatype Delta = Delta(added: seq<Scope>, removed: seq<Scope>, changed: seq<Change>)

  const NO_DELTA := Delta([], [], [])

  // What each of the six passes selects, from the list it walks.

  function FreshlyAllowed(prev: ScopeSet, next: ScopeSet): Scope -> bool {
    s => s !in prev.allow && s !in prev.deny
  }

  function AllowedAfterDeny(prev: ScopeSet, next: ScopeSet): Scope -> bool {
    s => s !in prev.allow && s in prev.deny
  }

  function DroppedFromAllow(prev: ScopeSet, next: ScopeSet): Scope -> bool {
    s => s !in next.allow && s !in next.deny
  }

  function DeniedAfterAllow(prev: ScopeSet, next: ScopeSet): Scope -> bool {
    s => s !in next.allow && s in next.deny
  }

  function DenyAppears(prev: ScopeSet, next: ScopeSet): Scope -> bool {
    s => s !in prev.deny && s in prev.allow && s in next.allow
  }

  function DenyVanishes(prev: ScopeSet, next: ScopeSet): Scope -> bool {
    s => s !in next.deny && s in prev.allow && s in next.allow
  }

  function FreshlyDenied(prev: ScopeSet, next: ScopeSet): Scope -> bool {
    s => s !in prev.deny && s !in prev.allow
  }

  function DroppedFromDeny(prev: ScopeSet, next: ScopeSet): Scope -> bool {
    s => s !in next.deny && s !in next.allow
  }

  function Flips(scopes: seq<Scope>, from: Side, to: Side): seq<Change> {
    seq(|scopes|, i requires 0 <= i < |scopes| => Change(scopes[i], from, to))
  }

  /** The delta two permission sets have, list by list and in order. */
  function PayloadDelta(prev: ScopeSet, next: ScopeSet): Delta {
    Delta(
      Filter(Dedup(next.allow), FreshlyAllowed(prev, next)) + Filter(Dedup(prev.deny), DroppedFromDeny(prev, next)),
      Filter(Dedup(prev.allow), DroppedFromAllow(prev, next)) + Filter(Dedup(next.deny), FreshlyDenied(prev, next)),
      Flips(Filter(Dedup(next.allow), AllowedAfterDeny(prev, next)), Deny, Allow)
      + Flips(Filter(Dedup(prev.allow), DeniedAfterAllow(prev, next)), Allow, Deny)
      + Flips(Filter(Dedup(next.deny), DenyAppears(prev, next)), Allow, Deny)
      + Flips(Filter(Dedup(prev.deny), DenyVanishes(prev, next)), Deny, Allow))
  }

  method ComputePayloadDelta(prev: ScopeSet, next: ScopeSet) returns (delta: Delta)
    ensures delta == PayloadDelta(prev, next)
  {
    var added, allowed := DiffEnteringAllow(prev, next);
    var removed, denied := DiffLeavingAllow(prev, next);
    var appearing := DiffAppearingDeny(prev, next);
    var vanishing := DiffVanishingDeny(prev, next);
    var freshlyDenied := DiffFreshDeny(prev, next);
    var undenied := DiffDroppedDeny(prev, next);
    delta := Delta(added + undenied, removed + freshlyDenied, allowed + denied + appearing + vanishing);
  }

  /** Pass one: scopes that enter the allow list. */
  method DiffEnteringAllow(prev: ScopeSet, next: ScopeSet) returns (added: seq<Scope>, changed: seq<Change>)
    ensures added == Filter(Dedup(next.allow), FreshlyAllowed(prev, next))
    ensures changed == Flips(Filter(Dedup(next.allow), AllowedAfterDeny(prev, next)), Deny, Allow)
  {
    added, changed := [], [];
    var scopes := Dedup(next.allow);
    for i := 0 to |scopes|
      invariant added == Filter(scopes[..i], FreshlyAllowed(prev, next))
      invariant changed == Flips(Filter(scopes[..i], AllowedAfterDeny(prev, next)), Deny, Allow)
    {
      FilterTake(scopes, i, FreshlyAllowed(prev, next));
      FlipsTake(scopes, i, AllowedAfterDeny(prev, next), Deny, Allow);
      if scopes[i] !in prev.allow {
        if scopes[i] in prev.deny {
          changed := changed + [Change(scopes[i], Deny, Allow)];
        } else {
          added := added + [scopes[i]];
        }
      }
    }
    assert scopes[..|scopes|] == scopes;
  }

  /** Pass two: scopes that leave the allow list. */
  method DiffLeavingAllow(prev: ScopeSet, next: ScopeSet) returns (removed: seq<Scope>, changed: seq<Change>)
    ensures removed == Filter(Dedup(prev.allow), DroppedFromAllow(prev, next))
    ensures changed == Flips(Filter(Dedup(prev.allow), DeniedAfterAllow(prev, next)), Allow, Deny)
  {
    removed, changed := [], [];
    var scopes := Dedup(prev.allow);
    for i := 0 to |scopes|
      invariant removed == Filter(scopes[..i], DroppedFromAllow(prev, next))
      invariant changed == Flips(Filter(scopes[..i], DeniedAfterAllow(prev, next)), Allow, Deny)
    {
      FilterTake(scopes, i, DroppedFromAllow(prev, next));
      FlipsTake(scopes, i, DeniedAfterAllow(prev, next), Allow, Deny);
      if scopes[i] !in next.allow {
        if scopes[i] in next.deny {
          changed := changed + [Change(scopes[i], Allow, Deny)];
        } else {
          removed := removed + [scopes[i]];
        }
      }
    }
    assert scopes[..|scopes|] == scopes;
  }

  /** Pass three: scopes allowed on both sides that become denied. */
  method DiffAppearingDeny(prev: ScopeSet, next: ScopeSet) returns (changed: seq<Change>)
    ensures changed == Flips(Filter(Dedup(next.deny), DenyAppears(prev, next)), Allow, Deny)
  {
    changed := [];
    var scopes := Dedup(next.deny);
    for i := 0 to |scopes|
      invariant changed == Flips(Filter(scopes[..i], DenyAppears(prev, next)), Allow, Deny)
    {
      FlipsTake(scopes, i, DenyAppears(prev, next), Allow, Deny);
      if scopes[i] !in prev.deny && scopes[i] in prev.allow && scopes[i] in next.allow {
        changed := changed + [Change(scopes[i], Allow, Deny)];
      }
    }
    assert scopes[..|scopes|] == scopes;
  }

  /** Pass four: scopes allowed on both sides that stop being denied. */
  method DiffVanishingDeny(prev: ScopeSet, next: ScopeSet) returns (changed: seq<Change>)
    ensures changed == Flips(Filter(Dedup(prev.deny), DenyVanishes(prev, next)), Deny, Allow)
  {
    changed := [];
    var scopes := Dedup(prev.deny);
    for i := 0 to |scopes|
      invariant changed == Flips(Filter(scopes[..i], DenyVanishes(prev, next)), Deny, Allow)
    {
      FlipsTake(scopes, i, DenyVanishes(prev, next), Deny, Allow);
      if scopes[i] !in next.deny && scopes[i] in prev.allow && scopes[i] in next.allow {
        changed := changed + [Change(scopes[i], Deny, Allow)];
      }
    }
    assert scopes[..|scopes|] == scopes;
  }

  /** Pass five: scopes mentioned nowhere before that are now denied. */
  method DiffFreshDeny(prev: ScopeSet, next: ScopeSet) returns (removed: seq<Scope>)
    ensures removed == Filter(Dedup(next.deny), FreshlyDenied(prev, next))
  {
    removed := [];
    var scopes := Dedup(next.deny);
    for i := 0 to |scopes|
      invariant removed == Filter(scopes[..i], FreshlyDenied(prev, next))
    {
      FilterTake(scopes, i, FreshlyDenied(prev, next));
      if scopes[i] !in prev.deny && scopes[i] !in prev.allow {
        removed := removed + [scopes[i]];
      }
    }
    assert scopes[..|scopes|] == scopes;
  }

  /** Pass six: denied scopes that are mentioned nowhere any more. */
  method DiffDroppedDeny(prev: ScopeSet, next: ScopeSet) returns (added: seq<Scope>)
    ensures added == Filter(Dedup(prev.deny), DroppedFromDeny(prev, next))
  {
    added := [];
    var scopes := Dedup(prev.deny);
    for i := 0 to |scopes|
      invariant added == Filter(scopes[..i], DroppedFromDeny(prev, next))
    {
      FilterTake(scopes, i, DroppedFromDeny(prev, next));
      if scopes[i] !in next.deny && scopes[i] !in next.allow {
        added := added + [scopes[i]];
      }
    }
    assert scopes[..|scopes|] == scopes;
  }

  lemma FilterTake<T>(s: seq<T>, i: nat, p: T -> bool)
    requires i < |s|
    ensures Filter(s[..i + 1], p) == if p(s[i]) then Filter(s[..i], p) + [s[i]] else Filter(s[..i], p)
  {
    assert s[..i + 1] == s[..i] + [s[i]];
    FilterSnoc(s[..i], s[i], p);
  }

  lemma FlipsTake(s: seq<Scope>, i: nat, p: Scope -> bool, from: Side, to: Side)
    requires i < |s|
    ensures Flips(Filter(s[..i + 1], p), from, to)
         == if p(s[i]) then Flips(Filter(s[..i], p), from, to) + [Change(s[i], from, to)]
            else Flips(Filter(s[..i], p), from, to)
  {
    FilterTake(s, i, p);
  }

  // ---- What a delta says, scope by scope --------------------------------

  lemma InFlips(scopes: seq<Scope>, from: Side, to: Side, c: Change)
    ensures c in Flips(scopes, from, to) <==> c.scope in scopes && c.from == from && c.to == to
  {
    if c.scope in scopes && c.from == from && c.to == to {
      var i :| 0 <= i < |scopes| && scopes[i] == c.scope;
      assert Flips(scopes, from, to)[i] == c;
    }
  }

  lemma ChangedMembers(prev: ScopeSet, next: ScopeSet, s: Scope, from: Side, to: Side)
    ensures Change(s, from, to) in PayloadDelta(prev, next).changed <==>
      || (from == Allow && to == Deny && s in prev.allow && s in next.deny && (s !in next.allow || s !in prev.deny))
      || (from == Deny && to == Allow && s in prev.deny && s in next.allow && (s !in prev.allow || s !in next.deny))
  {
    var c := Change(s, from, to);
    InFlips(Filter(Dedup(next.allow), AllowedAfterDeny(prev, next)), Deny, Allow, c);
    InFlips(Filter(Dedup(prev.allow), DeniedAfterAllow(prev, next)), Allow, Deny, c);
    InFlips(Filter(Dedup(next.deny), DenyAppears(prev, next)), Allow, Deny, c);
    InFlips(Filter(Dedup(prev.deny), DenyVanishes(prev, next)), Deny, Allow, c);
  }

  lemma AddedMembers(prev: ScopeSet, next: ScopeSet, s: Scope)
    ensures s in PayloadDelta(prev, next).added <==>
      || (s in next.allow && s !in prev.allow && s !in prev.deny)
      || (s in prev.deny && s !in next.allow && s !in next.deny)
  {
  }

  lemma RemovedMembers(prev: ScopeSet, next: ScopeSet, s: Scope)
    ensures s in PayloadDelta(prev, next).removed <==>
      || (s in prev.allow && s !in next.allow && s !in next.deny)
      || (s in next.deny && s !in prev.allow && s !in prev.deny)
  {
  }

  // ---- The algebra of deltas --------------------------------------------

  /** The delta is empty exactly when both lists name the same scopes. */
  lemma DeltaEmptyIff(prev: ScopeSet, next: ScopeSet)
    ensures PayloadDelta(prev, next) == NO_DELTA <==> SameLists(prev, next)
  {
    var d := PayloadDelta(prev, next);
    if SameLists(prev, next) {
      if d.changed != [] {
        var c := d.changed[0];
        ChangedMembers(prev, next, c.scope, c.from, c.to);
      }
      if d.added != [] {
        AddedMembers(prev, next, d.added[0]);
      }
      if d.removed != [] {
        RemovedMembers(prev, next, d.removed[0]);
      }
    } else {
      var s :| (s in prev.allow) != (s in next.allow) || (s in prev.deny) != (s in next.deny);
      AddedMembers(prev, next, s);
      RemovedMembers(prev, next, s);
      ChangedMembers(prev, next, s, Allow, Deny);
      ChangedMembers(prev, next, s, Deny, Allow);
    }
  }

  /** No list repeats an entry, and no scope flips twice. */
  lemma DeltaDistinct(prev: ScopeSet, next: ScopeSet)
    ensures var d := PayloadDelta(prev, next);
      && Distinct(d.added) && Distinct(d.removed) && Distinct(d.changed)
      && forall i, j :: 0 <= i < j < |d.changed| ==> d.changed[i].scope != d.changed[j].scope
  {
    FilterDistinct(Dedup(next.allow), FreshlyAllowed(prev, next));
    FilterDistinct(Dedup(prev.deny), DroppedFromDeny(prev, next));
    FilterDistinct(Dedup(prev.allow), DroppedFromAllow(prev, next));
    FilterDistinct(Dedup(next.deny), FreshlyDenied(prev, next));
    DistinctConcat(Filter(Dedup(next.allow), FreshlyAllowed(prev, next)), Filter(Dedup(prev.deny), DroppedFromDeny(prev, next)));
    DistinctConcat(Filter(Dedup(prev.allow), DroppedFromAllow(prev, next)), Filter(Dedup(next.deny), FreshlyDenied(prev, next)));
    FlipsDistinct(prev, next);
  }

  lemma FlipsDistinct(prev: ScopeSet, next: ScopeSet)
    ensures var changed := PayloadDelta(prev, next).changed;
      forall i, j :: 0 <= i < j < |changed| ==> changed[i].scope != changed[j].scope
  {
    var a := Filter(Dedup(next.allow), AllowedAfterDeny(prev, next));
    var b := Filter(Dedup(prev.allow), DeniedAfterAllow(prev, next));
    var c := Filter(Dedup(next.deny), DenyAppears(prev, next));
    var d := Filter(Dedup(prev.deny), DenyVanishes(prev, next));
    FilterDistinct(Dedup(next.allow), AllowedAfterDeny(prev, next));
    FilterDistinct(Dedup(prev.allow), DeniedAfterAllow(prev, next));
    FilterDistinct(Dedup(next.deny), DenyAppears(prev, next));
    FilterDistinct(Dedup(prev.deny), DenyVanishes(prev, next));
    DistinctConcat(a, b);
    DistinctConcat(a + b, c);
    DistinctConcat(a + b + c, d);
    ScopesOfFlips(a, b, c, d);
  }

  lemma ScopesOfFlips(a: seq<Scope>, b: seq<Scope>, c: seq<Scope>, d: seq<Scope>)
    ensures var changed := Flips(a, Deny, Allow) + Flips(b, Allow, Deny) + Flips(c, Allow, Deny) + Flips(d, Deny, Allow);
      && |changed| == |a + b + c + d|
      && forall i :: 0 <= i < |changed| ==> changed[i].scope == (a + b + c + d)[i]
  {
  }

  function Flipped(c: Change): Change { Change(c.scope, c.to, c.from) }

  function FlippedAll(changes: seq<Change>): seq<Change> {
    seq(|changes|, i requires 0 <= i < |changes| => Flipped(changes[i]))
  }

  /** Swapping the two sides swaps added with removed, entry for entry, and
      reverses every flip. */
  lemma DeltaSwap(prev: ScopeSet, next: ScopeSet)
    ensures var d, back := PayloadDelta(prev, next), PayloadDelta(next, prev);
      && back.added == d.removed
      && back.removed == d.added
      && multiset(back.changed) == multiset(FlippedAll(d.changed))
  {
    FilterCongruent(Dedup(prev.allow), FreshlyAllowed(next, prev), DroppedFromAllow(prev, next));
    FilterCongruent(Dedup(next.deny), DroppedFromDeny(next, prev), FreshlyDenied(prev, next));
    FilterCongruent(Dedup(next.allow), DroppedFromAllow(next, prev), FreshlyAllowed(prev, next));
    FilterCongruent(Dedup(prev.deny), FreshlyDenied(next, prev), DroppedFromDeny(prev, next));
    SwapChanges(prev, next);
  }

  lemma SwapChanges(prev: ScopeSet, next: ScopeSet)
    ensures multiset(PayloadDelta(next, prev).changed) == multiset(FlippedAll(PayloadDelta(prev, next).changed))
  {
    var d, back := PayloadDelta(prev, next), PayloadDelta(next, prev);
    var flipped := FlippedAll(d.changed);
    DeltaDistinct(prev, next);
    DeltaDistinct(next, prev);
    assert Distinct(flipped);
    forall c: Change
      ensures c in back.changed <==> c in flipped
    {
      ChangedMembers(next, prev, c.scope, c.from, c.to);
      ChangedMembers(prev, next, c.scope, c.to, c.from);
      if Flipped(c) in d.changed {
        var i :| 0 <= i < |d.changed| && d.changed[i] == Flipped(c);
        assert flipped[i] == c;
      }
    }
    DistinctSameElements(back.changed, flipped);
  }

  // ---- Replaying a delta ------------------------------------------------

  /** Allow and deny membership of one permission set, lists forgotten. */
  datatype Grants = Grants(allow: iset<Scope>, deny: iset<Scope>)

  ghost function GrantsOf(p: ScopeSet): Grants {
    Grants(iset s | s in p.allow, iset s | s in p.deny)
  }

  /** What a reader who knows only the previous permissions and the delta
      concludes about the next ones. `added` adds an allow entry or drops a
      deny entry, `removed` the reverse; a flip moves the scope. */
  ghost function Replay(prev: Grants, d: Delta): Grants {
    Grants(
      iset s | AllowedAfter(prev, d, s),
      iset s | DeniedAfter(prev, d, s))
  }

  ghost predicate AllowedAfter(prev: Grants, d: Delta, s: Scope) {
    if s in prev.allow
    then s !in d.removed && Change(s, Allow, Deny) !in d.changed
    else (s in d.added && s !in prev.deny) || Change(s, Deny, Allow) in d.changed
  }

  ghost predicate DeniedAfter(prev: Grants, d: Delta, s: Scope) {
    if s in prev.deny
    then s !in d.added && Change(s, Deny, Allow) !in d.changed
    else (s in d.removed && s !in prev.allow) || Change(s, Allow, Deny) in d.changed
  }

  /** No scope goes from exactly one of the two lists to both. */
  predicate Replayable(prev: ScopeSet, next: ScopeSet) {
    forall s :: s in next.allow && s in next.deny ==> (s in prev.allow <==> s in prev.deny)
  }

  lemma ReplayScope(prev: ScopeSet, next: ScopeSet, s: Scope)
    ensures var d := PayloadDelta(prev, next);
      ((AllowedAfter(GrantsOf(prev), d, s) <==> s in next.allow) && (DeniedAfter(GrantsOf(prev), d, s) <==> s in next.deny))
      <==> (s in next.allow && s in next.deny ==> (s in prev.allow <==> s in prev.deny))
  {
    AddedMembers(prev, next, s);
    RemovedMembers(prev, next, s);
    ChangedMembers(prev, next, s, Allow, Deny);
    ChangedMembers(prev, next, s, Deny, Allow);
  }

  /** The previous permissions and the delta determine the next ones exactly
      when no scope goes from one of the two lists to both. In particular they
      do whenever the next lists are disjoint. */
  lemma ReplayDetermines(prev: ScopeSet, next: ScopeSet)
    ensures Replay(GrantsOf(prev), PayloadDelta(prev, next)) == GrantsOf(next)
       <==> Replayable(prev, next)
  {
    var d := PayloadDelta(prev, next);
    var r, g := Replay(GrantsOf(prev), d), GrantsOf(next);
    if Replayable(prev, next) {
      forall s
        ensures (s in r.allow <==> s in g.allow) && (s in r.deny <==> s in g.deny)
      {
        ReplayScope(prev, next, s);
      }
      assert r.allow == g.allow && r.deny == g.deny;
    } else {
      var s :| s in next.allow && s in next.deny && (s in prev.allow) != (s in prev.deny);
      ReplayScope(prev, next, s);
      assert (s in r.allow) != (s in g.allow) || (s in r.deny) != (s in g.deny);
    }
  }

  lemma ReplayDisjoint(prev: ScopeSet, next: ScopeSet)
    requires Disjoint(next)
    ensures Replay(GrantsOf(prev), PayloadDelta(prev, next)) == GrantsOf(next)
  {
    ReplayDetermines(prev, next);
  }

  ghost predicate SameEntries<T(!new)>(a: seq<T>, b: seq<T>) { forall x :: x in a <==> x in b }

  /** Two deltas that list the same changes. */
  ghost predicate SameDelta(d: Delta, e: Delta) {
    SameEntries(d.added, e.added) && SameEntries(d.removed, e.removed) && SameEntries(d.changed, e.changed)
  }

  /** `next` with a scope that it lists twice left on one side only: the side
      it was not on before. */
  function Moved(prev: ScopeSet, next: ScopeSet, s: Scope): ScopeSet {
    if s in prev.allow then ScopeSet(Filter(next.allow, x => x != s), next.deny)
    else ScopeSet(next.allow, Filter(next.deny, x => x != s))
  }

  /** Outside that condition nothing can recover the next permissions: moving
      the scope to the other side leaves the same delta as listing it on both. */
  lemma ReplayAmbiguous(prev: ScopeSet, next: ScopeSet, s: Scope)
    requires s in next.allow && s in next.deny && !(s in prev.allow <==> s in prev.deny)
    ensures SameDelta(PayloadDelta(prev, next), PayloadDelta(prev, Moved(prev, next, s)))
    ensures !SameLists(next, Moved(prev, next, s))
  {
    var other := Moved(prev, next, s);
    var d, e := PayloadDelta(prev, next), PayloadDelta(prev, other);
    forall x
      ensures x in d.added <==> x in e.added
      ensures x in d.removed <==> x in e.removed
    {
      AddedMembers(prev, next, x);
      AddedMembers(prev, other, x);
      RemovedMembers(prev, next, x);
      RemovedMembers(prev, other, x);
    }
    forall c: Change
      ensures c in d.changed <==> c in e.changed
    {
      ChangedMembers(prev, next, c.scope, c.from, c.to);
      ChangedMembers(prev, other, c.scope, c.from, c.to);
    }
  }

  /** The two smallest cases, one for each side the scope can come from. */
  lemma AmbiguousFromAllow(s: Scope)
    ensures PayloadDelta(ScopeSet([s], []), ScopeSet([], [s])) == PayloadDelta(ScopeSet([s], []), ScopeSet([s], [s]))
    ensures !SameLists(ScopeSet([], [s]), ScopeSet([s], [s]))
  {
    var prev, denied, both := ScopeSet([s], []), ScopeSet([], [s]), ScopeSet([s], [s]);
    assert s in both.allow && s !in denied.allow;
    DedupSingle(s);
    FilterSingle(s, DeniedAfterAllow(prev, denied));
    FilterSingle(s, DenyAppears(prev, both));
    FilterSingle(s, DenyAppears(prev, denied));
    FilterSingle(s, DeniedAfterAllow(prev, both));
    FilterSingle(s, DroppedFromAllow(prev, denied));
    FilterSingle(s, DroppedFromAllow(prev, both));
    FilterSingle(s, FreshlyDenied(prev, denied));
    FilterSingle(s, FreshlyDenied(prev, both));
    FilterSingle(s, FreshlyAllowed(prev, both));
    FilterSingle(s, AllowedAfterDeny(prev, both));
  }

  lemma AmbiguousFromDeny(s: Scope)
    ensures PayloadDelta(ScopeSet([], [s]), ScopeSet([s], [])) == PayloadDelta(ScopeSet([], [s]), ScopeSet([s], [s]))
    ensures !SameLists(ScopeSet([s], []), ScopeSet([s], [s]))
  {
    var prev, allowed, both := ScopeSet([], [s]), ScopeSet([s], []), ScopeSet([s], [s]);
    assert s in both.deny && s !in allowed.deny;
    DedupSingle(s);
    FilterSingle(s, AllowedAfterDeny(prev, allowed));
    FilterSingle(s, AllowedAfterDeny(prev, both));
    FilterSingle(s, FreshlyAllowed(prev, allowed));
    FilterSingle(s, FreshlyAllowed(prev, both));
    FilterSingle(s, DenyAppears(prev, both));
    FilterSingle(s, DenyVanishes(prev, allowed));
    FilterSingle(s, DenyVanishes(prev, both));
    FilterSingle(s, FreshlyDenied(prev, both));
    FilterSingle(s, DroppedFromDeny(prev, allowed));
    FilterSingle(s, DroppedFromDeny(prev, both));
  }

  lemma DedupSingle(s: Scope)
    ensures Dedup([s]) == [s] && Dedup<Scope>([]) == []
  {
    assert [s][..0] == [];
  }

  lemma FilterSingle(s: Scope, p: Scope -> bool)
    ensures Filter([s], p) == if p(s) then [s] else []
  {
    assert [s][..0] == [];
  }
}
