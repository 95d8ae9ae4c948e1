/** The order-insensitive policy text that credentials are deduplicated by. */
module PolicyHash {
  import opened Ordering
  import opened Json
  import opened JsonMeaning
  import opened Scopes

  /** `collate(a, b)`: does locale comparison put text `a` before text `b`? */
  type Collation = (string, string) -> bool

  /** Array items are compared by their JSON texts. */
  function ByText(collate: Collation): (string, string) -> bool {
    (a, b) => collate(Quote(a), Quote(b))
  }

  function Texts(items: seq<string>): (r: seq<Value>)
    ensures |r| == |items| && forall i :: 0 <= i < |items| ==> r[i] == Str(items[i])
  {
    seq(|items|, i requires 0 <= i < |items| => Str(items[i]))
  }

  function SortedTexts(items: seq<string>, collate: Collation): Value {
    Arr(Texts(Sort(items, ByText(collate))))
  }

  function PolicyValue(scopes: ScopeSet, chatIds: seq<string>, collate: Collation): Value {
    Obj([
      Field("scopes", Obj([
        Field("allow", SortedTexts(scopes.allow, collate)),
        Field("deny", SortedTexts(scopes.deny, collate))])),
      Field("chatIds", SortedTexts(chatIds, collate))])
  }

  function CanonicalPolicy(scopes: ScopeSet, chatIds: seq<string>, collate: Collation): string {
    Canonical(PolicyValue(scopes, chatIds, collate))
  }

  // ---- The text determines the sorted lists ------------------------------

  lemma PolicyValueWellFormed(scopes: ScopeSet, chatIds: seq<string>, collate: Collation)
    ensures WellFormed(PolicyValue(scopes, chatIds, collate))
  {
    var v := PolicyValue(scopes, chatIds, collate);
    assert WellFormed(SortedTexts(scopes.allow, collate));
    assert WellFormed(SortedTexts(scopes.deny, collate));
    assert WellFormed(SortedTexts(chatIds, collate));
    var inner := v.fields[0].value;
    assert WellFormed(inner) by {
      assert inner.fields[0].key != inner.fields[1].key;
    }
    assert v.fields[0].key != v.fields[1].key;
  }

  lemma TwoMembers(a: Field, b: Field)
    requires a.key != b.key && Visible(a) && Visible(b)
    ensures Members([a, b]) == map[a.key := MeaningOf(a.value), b.key := MeaningOf(b.value)]
  {
    var none: seq<Field> := [];
    assert [b][1..] == none && Members(none) == map[];
    assert Members([b]) == map[b.key := MeaningOf(b.value)];
    assert [a, b][1..] == [b];
  }

  lemma PolicyMeaning(scopes: ScopeSet, chatIds: seq<string>, collate: Collation)
    ensures MeaningOf(PolicyValue(scopes, chatIds, collate))
         == MObj(map[
              "scopes" := MObj(map[
                "allow" := MeaningOf(SortedTexts(scopes.allow, collate)),
                "deny" := MeaningOf(SortedTexts(scopes.deny, collate))]),
              "chatIds" := MeaningOf(SortedTexts(chatIds, collate))])
  {
    var allow := Field("allow", SortedTexts(scopes.allow, collate));
    var deny := Field("deny", SortedTexts(scopes.deny, collate));
    TwoMembers(allow, deny);
    TwoMembers(Field("scopes", Obj([allow, deny])), Field("chatIds", SortedTexts(chatIds, collate)));
  }

  lemma SameTextsMeaning(a: seq<string>, b: seq<string>)
    ensures MeaningOf(Arr(Texts(a))) == MeaningOf(Arr(Texts(b))) <==> a == b
  {
    var ma, mb := ItemMeanings(Texts(a)), ItemMeanings(Texts(b));
    assert forall i :: 0 <= i < |a| ==> ma[i] == MStr(a[i]);
    assert forall i :: 0 <= i < |b| ==> mb[i] == MStr(b[i]);
    if ma == mb {
      assert |a| == |b|;
      forall i | 0 <= i < |a|
        ensures a[i] == b[i]
      {
        assert ma[i] == mb[i];
      }
    }
  }

  lemma CanonicalPolicyIffSorted(s: ScopeSet, c: seq<string>, s': ScopeSet, c': seq<string>, collate: Collation)
    ensures CanonicalPolicy(s, c, collate) == CanonicalPolicy(s', c', collate) <==>
      var less := ByText(collate);
      && Sort(s.allow, less) == Sort(s'.allow, less)
      && Sort(s.deny, less) == Sort(s'.deny, less)
      && Sort(c, less) == Sort(c', less)
  {
    var less := ByText(collate);
    PolicyValueWellFormed(s, c, collate);
    PolicyValueWellFormed(s', c', collate);
    CanonicalIffMeaning(PolicyValue(s, c, collate), PolicyValue(s', c', collate));
    PolicyMeaning(s, c, collate);
    PolicyMeaning(s', c', collate);
    SameTextsMeaning(Sort(s.allow, less), Sort(s'.allow, less));
    SameTextsMeaning(Sort(s.deny, less), Sort(s'.deny, less));
    SameTextsMeaning(Sort(c, less), Sort(c', less));
    PolicyMapsEqual(MeaningOf(SortedTexts(s.allow, collate)), MeaningOf(SortedTexts(s.deny, collate)), MeaningOf(SortedTexts(c, collate)),
                    MeaningOf(SortedTexts(s'.allow, collate)), MeaningOf(SortedTexts(s'.deny, collate)), MeaningOf(SortedTexts(c', collate)));
  }

  lemma PolicyMapsEqual(a: Meaning, d: Meaning, c: Meaning, a': Meaning, d': Meaning, c': Meaning)
    ensures MObj(map["scopes" := MObj(map["allow" := a, "deny" := d]), "chatIds" := c])
         == MObj(map["scopes" := MObj(map["allow" := a', "deny" := d']), "chatIds" := c'])
       <==> a == a' && d == d' && c == c'
  {
    var i, i' := map["allow" := a, "deny" := d], map["allow" := a', "deny" := d'];
    var o, o' := map["scopes" := MObj(i), "chatIds" := c], map["scopes" := MObj(i'), "chatIds" := c'];
    assert i["allow"] == a && i["deny"] == d && i'["allow"] == a' && i'["deny"] == d';
    assert o["scopes"] == MObj(i) && o["chatIds"] == c && o'["scopes"] == MObj(i') && o'["chatIds"] == c';
  }

  // ---- Equal text means equal multisets ----------------------------------

  /** No list of the request holds two different items that collate as equal. */
  ghost predicate Distinguishes(collate: Collation, s: ScopeSet, c: seq<string>) {
    var less := ByText(collate);
    NoTies(s.allow, less) && NoTies(s.deny, less) && NoTies(c, less)
  }

  /** Two requests have the same canonical policy only if their lists agree as
      multisets, whatever the collation; and if they do agree the text is the
      same, provided the collation distinguishes the items. */
  lemma CanonicalPolicyIff(s: ScopeSet, c: seq<string>, s': ScopeSet, c': seq<string>, collate: Collation)
    requires StrictWeakOrder(ByText(collate)) && Distinguishes(collate, s, c)
    ensures CanonicalPolicy(s, c, collate) == CanonicalPolicy(s', c', collate) <==>
      Reordered(s, c, s', c')
  {
    var less := ByText(collate);
    CanonicalPolicyIffSorted(s, c, s', c', collate);
    SameSortIff(s.allow, s'.allow, less);
    SameSortIff(s.deny, s'.deny, less);
    SameSortIff(c, c', less);
  }

  lemma CanonicalPolicyOnlyIf(s: ScopeSet, c: seq<string>, s': ScopeSet, c': seq<string>, collate: Collation)
    requires CanonicalPolicy(s, c, collate) == CanonicalPolicy(s', c', collate)
    ensures Reordered(s, c, s', c')
  {
    var less := ByText(collate);
    CanonicalPolicyIffSorted(s, c, s', c', collate);
    SortMultiset(s.allow, less);
    SortMultiset(s'.allow, less);
    SortMultiset(s.deny, less);
    SortMultiset(s'.deny, less);
    SortMultiset(c, less);
    SortMultiset(c', less);
  }

  ghost predicate Reordered(s: ScopeSet, c: seq<string>, s': ScopeSet, c': seq<string>) {
    multiset(s.allow) == multiset(s'.allow) && multiset(s.deny) == multiset(s'.deny) && multiset(c) == multiset(c')
  }

  /** The proviso is exact: every reordering of a request has its text exactly
      when no two different items of one of its lists collate as equal. */
  lemma OrderInsensitiveIff(s: ScopeSet, c: seq<string>, collate: Collation)
    requires StrictWeakOrder(ByText(collate))
    ensures (forall s', c' :: Reordered(s, c, s', c') ==> CanonicalPolicy(s', c', collate) == CanonicalPolicy(s, c, collate))
       <==> Distinguishes(collate, s, c)
  {
    var less := ByText(collate);
    if Distinguishes(collate, s, c) {
      forall s', c' | Reordered(s, c, s', c')
        ensures CanonicalPolicy(s', c', collate) == CanonicalPolicy(s, c, collate)
      {
        CanonicalPolicyIff(s, c, s', c', collate);
      }
    } else {
      var s', c' := s, c;
      if !NoTies(s.allow, less) {
        var swapped := TiedSwap(s.allow, less);
        s' := ScopeSet(swapped, s.deny);
      } else if !NoTies(s.deny, less) {
        var swapped := TiedSwap(s.deny, less);
        s' := ScopeSet(s.allow, swapped);
      } else {
        c' := TiedSwap(c, less);
      }
      CanonicalPolicyIffSorted(s', c', s, c, collate);
      assert Reordered(s, c, s', c');
    }
  }

  /** Another sorted listing of a list with a tie. */
  lemma TiedSwap(c: seq<string>, less: (string, string) -> bool) returns (swapped: seq<string>)
    requires StrictWeakOrder(less) && !NoTies(c, less)
    ensures multiset(swapped) == multiset(c) && Sort(swapped, less) != Sort(c, less)
  {
    var sorted := Sort(c, less);
    SortMultiset(c, less);
    SortSorted(c, less);
    var x, y :| x in c && y in c && x != y && !less(x, y) && !less(y, x);
    SortElements(c, less, x);
    SortElements(c, less, y);
    var i :| 0 <= i < |sorted| && sorted[i] == x;
    var j :| 0 <= j < |sorted| && sorted[j] == y;
    swapped := sorted[i := y][j := x];
    assert swapped[i] == y;
    TiedSwapSorted(sorted, i, j, less);
    SortIdempotent(swapped, less);
  }

  lemma TiedSwapSorted(s: seq<string>, i: nat, j: nat, less: (string, string) -> bool)
    requires StrictWeakOrder(less) && Sorted(s, less) && i < |s| && j < |s| && i != j
    requires !less(s[i], s[j]) && !less(s[j], s[i])
    ensures Sorted(s[i := s[j]][j := s[i]], less)
    ensures multiset(s[i := s[j]][j := s[i]]) == multiset(s)
  {
    var t := s[i := s[j]][j := s[i]];
    forall p, q | 0 <= p < q < |t|
      ensures !less(t[q], t[p])
    {
      var tp, tq, sp, sq := t[p], t[q], s[p], s[q];
      assert !less(tq, sq) && !less(sp, tp) && !less(sq, sp);
      assert !less(tq, tp) || less(tq, sq) || less(sq, tp);
      assert !less(sq, tp) || less(sq, sp) || less(sp, tp);
    }
  }
}
