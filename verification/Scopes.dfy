/** Permission scope sets: an allow list and a deny list, where deny wins. */
module Scopes {
  import opened Prelude

  type Scope = string

  datatype ScopeSet = ScopeSet(allow: seq<Scope>, deny: seq<Scope>)

  /** What a scope set effectively grants. */
  function Resolved(scopes: ScopeSet): set<Scope> {
    set s | s in scopes.allow && s !in scopes.deny
  }

  method ResolveScopeSet(scopes: ScopeSet) returns (result: set<Scope>)
    ensures result == Resolved(scopes)
  {
    result := {};
    for i := 0 to |scopes.allow|
      invariant result == set s | s in scopes.allow[..i] && s !in scopes.deny
    {
      if scopes.allow[i] !in scopes.deny {
        result := result + {scopes.allow[i]};
      }
    }
  }

  /** A policy's lists followed by the inline overrides of a request. */
  function ResolvePolicy(policy: ScopeSet, inlineAllow: Option<seq<Scope>>, inlineDeny: Option<seq<Scope>>): ScopeSet {
    ScopeSet(policy.allow + if inlineAllow.Some? then inlineAllow.value else [],
             policy.deny + if inlineDeny.Some? then inlineDeny.value else [])
  }

  /** Merging never lets an inline allow override a policy's deny, and grants
      nothing that neither side allowed. */
  lemma ResolvePolicyGrants(policy: ScopeSet, inlineAllow: seq<Scope>, inlineDeny: seq<Scope>)
    ensures Resolved(ResolvePolicy(policy, Some(inlineAllow), Some(inlineDeny)))
         == (Resolved(policy) + Resolved(ScopeSet(inlineAllow, inlineDeny)))
            - (set s | s in policy.deny) - (set s | s in inlineDeny)
  {
  }

  /** Two scope sets that list the same scopes, order and repetition aside. */
  ghost predicate SameLists(a: ScopeSet, b: ScopeSet) {
    && (forall s :: s in a.allow <==> s in b.allow)
    && (forall s :: s in a.deny <==> s in b.deny)
  }

  predicate Disjoint(scopes: ScopeSet) {
    forall s :: s in scopes.allow ==> s !in scopes.deny
  }
}
