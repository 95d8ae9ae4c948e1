/** Whether a scope change is material, and whether it widens what a live
    credential may do. */
module ScopeMateriality {
  import opened Prelude
  import opened Scopes
  import opened SealDelta

  datatype Check = Check(isMaterial: bool, requiresReauthorization: bool, delta: Delta)

  predicate Effective(scopes: ScopeSet, s: Scope) { s in scopes.allow && s !in scopes.deny }

  /** How one scope contributes to the delta collected so far. */
  function Classify(old_: ScopeSet, new_: ScopeSet, d: Delta, s: Scope): Delta {
    if Effective(old_, s) == Effective(new_, s) then d
    else if Effective(new_, s) then
      if s in old_.allow || s in old_.deny then d.(changed := d.changed + [Change(s, Deny, Allow)])
      else d.(added := d.added + [s])
    else if s in new_.deny then d.(changed := d.changed + [Change(s, Allow, Deny)])
    else d.(removed := d.removed + [s])
  }

  function EffectiveDelta(old_: ScopeSet, new_: ScopeSet, scopes: seq<Scope>): Delta {
    if scopes == [] then NO_DELTA
    else Classify(old_, new_, EffectiveDelta(old_, new_, scopes[..|scopes| - 1]), scopes[|scopes| - 1])
  }

  function Mentioned(old_: ScopeSet, new_: ScopeSet): seq<Scope> {
    Dedup(old_.allow + old_.deny + new_.allow + new_.deny)
  }

  function ToAllow(): Change -> bool { (c: Change) => c.to == Allow }

  predicate IsMaterial(d: Delta) { |d.added| > 0 || |d.removed| > 0 || |d.changed| > 0 }

  predicate Escalates(d: Delta) { |d.added| > 0 || |Filter(d.changed, ToAllow())| > 0 }

  function Materiality(old_: ScopeSet, new_: ScopeSet): Check {
    var d := EffectiveDelta(old_, new_, Mentioned(old_, new_));
    Check(IsMaterial(d), Escalates(d), d)
  }

  method CheckMateriality(oldScopes: ScopeSet, newScopes: ScopeSet) returns (check: Check)
    ensures check == Materiality(oldScopes, newScopes)
  {
    var all := Mentioned(oldScopes, newScopes);
    var added: seq<Scope>, removed: seq<Scope>, changed: seq<Change> := [], [], [];
    for i := 0 to |all|
      invariant Delta(added, removed, changed) == EffectiveDelta(oldScopes, newScopes, all[..i])
    {
      var scope := all[i];
      assert all[..i + 1][..i] == all[..i];
      var oldAllowed := scope in oldScopes.allow && scope !in oldScopes.deny;
      var newAllowed := scope in newScopes.allow && scope !in newScopes.deny;
      if oldAllowed != newAllowed {
        if !oldAllowed && newAllowed {
          if scope in oldScopes.allow || scope in oldScopes.deny {
            changed := changed + [Change(scope, Deny, Allow)];
          } else {
            added := added + [scope];
          }
        } else if scope in newScopes.deny {
          changed := changed + [Change(scope, Allow, Deny)];
        } else {
          removed := removed + [scope];
        }
      }
    }
    assert all[..|all|] == all;
    var delta := Delta(added, removed, changed);
    check := Check(IsMaterial(delta), Escalates(delta), delta);
  }

  lemma {:induction false} MaterialScopes(old_: ScopeSet, new_: ScopeSet, scopes: seq<Scope>)
    ensures IsMaterial(EffectiveDelta(old_, new_, scopes)) <==>
      exists s :: s in scopes && Effective(old_, s) != Effective(new_, s)
  {
    if scopes != [] {
      MaterialScopes(old_, new_, scopes[..|scopes| - 1]);
      assert scopes == scopes[..|scopes| - 1] + [scopes[|scopes| - 1]];
    }
  }

  predicate Grows(old_: ScopeSet, new_: ScopeSet, s: Scope) { !Effective(old_, s) && Effective(new_, s) }

  lemma EscalatesSnoc(old_: ScopeSet, new_: ScopeSet, d: Delta, s: Scope)
    ensures Escalates(Classify(old_, new_, d, s)) <==> Escalates(d) || Grows(old_, new_, s)
  {
    FilterSnoc(d.changed, Change(s, Deny, Allow), ToAllow());
    FilterSnoc(d.changed, Change(s, Allow, Deny), ToAllow());
  }

  lemma {:induction false} EscalatingScopes(old_: ScopeSet, new_: ScopeSet, scopes: seq<Scope>)
    ensures Escalates(EffectiveDelta(old_, new_, scopes)) <==>
      exists s :: s in scopes && Grows(old_, new_, s)
  {
    if scopes != [] {
      var front, last := scopes[..|scopes| - 1], scopes[|scopes| - 1];
      EscalatingScopes(old_, new_, front);
      EscalatesSnoc(old_, new_, EffectiveDelta(old_, new_, front), last);
      assert scopes == front + [last];
    }
  }

  predicate Shrinks(old_: ScopeSet, new_: ScopeSet, s: Scope) { Effective(old_, s) && !Effective(new_, s) }

  /** What the lists say of one scope, once these scopes have been looked at. */
  predicate ListedRightly(old_: ScopeSet, new_: ScopeSet, d: Delta, s: Scope, seen: bool) {
    var before := s in old_.allow || s in old_.deny;
    && (s in d.added <==> seen && Grows(old_, new_, s) && !before)
    && (s in d.removed <==> seen && Shrinks(old_, new_, s) && s !in new_.deny)
    && (Change(s, Deny, Allow) in d.changed <==> seen && Grows(old_, new_, s) && before)
    && (Change(s, Allow, Deny) in d.changed <==> seen && Shrinks(old_, new_, s) && s in new_.deny)
  }

  lemma {:induction false} ListedUpTo(old_: ScopeSet, new_: ScopeSet, scopes: seq<Scope>, s: Scope)
    ensures ListedRightly(old_, new_, EffectiveDelta(old_, new_, scopes), s, s in scopes)
  {
    if scopes != [] {
      ListedUpTo(old_, new_, scopes[..|scopes| - 1], s);
      assert scopes == scopes[..|scopes| - 1] + [scopes[|scopes| - 1]];
    }
  }

  /** What is reported of a scope: a gain as an addition, or as a flip if it was
      mentioned before; a loss as a removal, or as a flip if it is now denied;
      and nothing if its effect stays the same. */
  lemma MaterialityLists(oldScopes: ScopeSet, newScopes: ScopeSet, s: Scope)
    ensures ListedRightly(oldScopes, newScopes, Materiality(oldScopes, newScopes).delta, s, true)
  {
    ListedUpTo(oldScopes, newScopes, Mentioned(oldScopes, newScopes), s);
  }

  /** A change is material exactly when the effective permissions differ, and
      needs reauthorization exactly when they would grow. */
  lemma MaterialityMeaning(oldScopes: ScopeSet, newScopes: ScopeSet)
    ensures var check := Materiality(oldScopes, newScopes);
      && (check.isMaterial <==> Resolved(oldScopes) != Resolved(newScopes))
      && (check.requiresReauthorization <==> !(Resolved(newScopes) <= Resolved(oldScopes)))
  {
    var all := Mentioned(oldScopes, newScopes);
    MaterialScopes(oldScopes, newScopes, all);
    EscalatingScopes(oldScopes, newScopes, all);
    forall s
      ensures s in Resolved(oldScopes) <==> Effective(oldScopes, s)
      ensures s in Resolved(newScopes) <==> Effective(newScopes, s)
      ensures Effective(oldScopes, s) || Effective(newScopes, s) ==> s in all
    {
    }
  }
}
