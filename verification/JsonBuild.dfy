/** Key sorting as it is carried out: an object is filled key by key. */
module JsonBuild {
  import opened Prelude
  import opened Ordering
  import opened Json
  import opened JsonMeaning

  /** `object[key] = value` for a key the object does not have yet. */
  function SetProperty(fields: seq<Field>, key: string, value: Value): seq<Field> {
    if key == PROTO then fields
    else if IsIndex(key) then Insert(fields, Field(key, value), FieldBefore)
    else fields + [Field(key, value)]
  }

  function Keys(fields: seq<Field>): (r: seq<string>)
    ensures |r| == |fields| && forall i :: 0 <= i < |fields| ==> r[i] == fields[i].key
  {
    seq(|fields|, i requires 0 <= i < |fields| => fields[i].key)
  }

  /** What has been stored once the keys in `done` are handled. */
  ghost predicate Filled(fields: seq<Field>, done: seq<string>, stored: seq<Field>) {
    && Sorted(stored, FieldBefore) && DistinctKeys(stored)
    && (forall g :: g in stored ==> g.key in done && g in SortFieldValues(fields))
    && (forall g :: g in SortFieldValues(fields) && g.key in done ==> g in stored)
  }

  method BuildSorted(v: Value) returns (r: Value)
    requires WellFormed(v)
    ensures r == SortKeys(v)
    decreases v, 0
  {
    match v
    case Arr(items) =>
      var mapped := BuildItems(items);
      r := Arr(mapped);
    case Obj(fields) =>
      var stored := BuildFields(fields);
      r := Obj(stored);
    case _ => r := v;
  }

  method BuildItems(items: seq<Value>) returns (mapped: seq<Value>)
    requires forall i :: 0 <= i < |items| ==> WellFormed(items[i])
    ensures mapped == SortItems(items)
    decreases items, 1
  {
    mapped := [];
    for i := 0 to |items|
      invariant |mapped| == i && forall k :: 0 <= k < i ==> mapped[k] == SortKeys(items[k])
    {
      var item := BuildSorted(items[i]);
      mapped := mapped + [item];
    }
  }

  method BuildFields(fields: seq<Field>) returns (stored: seq<Field>)
    requires DistinctKeys(fields)
    requires forall i :: 0 <= i < |fields| ==> WellFormed(fields[i].value)
    ensures stored == SortedFields(fields)
    decreases fields, 1
  {
    var keys := Sort(Keys(fields), Before);
    SortedKeysFacts(fields);
    stored := [];
    for i := 0 to |keys|
      invariant Filled(fields, keys[..i], stored)
    {
      var at := IndexOf(fields, keys[i]);
      var value := BuildSorted(fields[at].value);
      FillStep(fields, keys, i, fields[at], stored);
      stored := SetProperty(stored, keys[i], value);
    }
    assert keys[..|keys|] == keys;
    FilledAll(fields, keys, stored);
  }

  method IndexOf(fields: seq<Field>, key: string) returns (at: nat)
    requires key in Keys(fields)
    ensures at < |fields| && fields[at].key == key
  {
    at := 0;
    while fields[at].key != key
      invariant at < |fields|
      invariant key in Keys(fields)[at..]
      decreases |fields| - at
    {
      at := at + 1;
    }
  }

  lemma SortedKeysFacts(fields: seq<Field>)
    requires DistinctKeys(fields)
    ensures var keys := Sort(Keys(fields), Before);
      && Sorted(keys, Before) && Distinct(keys)
      && (forall k :: k in keys <==> k in Keys(fields))
  {
    BeforeIsStrictOrder();
    var raw := Keys(fields);
    SortSorted(raw, Before);
    SortMultiset(raw, Before);
    DistinctPermuted(raw, Sort(raw, Before));
    forall k
      ensures k in Sort(raw, Before) <==> k in raw
    {
      SortElements(raw, Before, k);
    }
  }

  lemma DistinctPermuted(a: seq<string>, b: seq<string>)
    requires Distinct(a) && multiset(a) == multiset(b)
    ensures Distinct(b)
  {
    forall i, j | 0 <= i < j < |b|
      ensures b[i] != b[j]
    {
      DistinctMultiset(a, b[i]);
      assert b == b[..j] + [b[j]] + b[j + 1..];
      assert b[i] in b[..j];
    }
  }

  lemma FillStep(fields: seq<Field>, keys: seq<string>, i: nat, f: Field, stored: seq<Field>)
    requires DistinctKeys(fields) && i < |keys| && Sorted(keys, Before) && Distinct(keys)
    requires f in fields && f.key == keys[i]
    requires Filled(fields, keys[..i], stored)
    ensures Filled(fields, keys[..i + 1], SetProperty(stored, keys[i], SortKeys(f.value)))
  {
    var g := Field(f.key, SortKeys(f.value));
    assert keys[..i + 1] == keys[..i] + [keys[i]];
    forall h | h in SortFieldValues(fields) && h.key == keys[i]
      ensures h == g && f.key != PROTO
    {
      var source := SourceField(fields, h);
    }
    if f.key != PROTO {
      SortedFieldValue(fields, f);
      StoreOne(keys, i, g, stored);
    }
  }

  lemma StoreOne(keys: seq<string>, i: nat, g: Field, stored: seq<Field>)
    requires i < |keys| && Sorted(keys, Before) && Distinct(keys)
    requires g.key == keys[i] && g.key != PROTO
    requires Sorted(stored, FieldBefore) && DistinctKeys(stored)
    requires forall h :: h in stored ==> h.key in keys[..i]
    ensures var after := SetProperty(stored, g.key, g.value);
      && Sorted(after, FieldBefore) && DistinctKeys(after)
      && forall h :: h in after <==> h in stored || h == g
  {
    KeyBeforeIsStrictOrder();
    if IsIndex(g.key) {
      InsertField(stored, g);
    } else {
      NotBeforeStored(keys, i, stored);
    }
  }

  /** Insertion keeps the fields sorted and adds just the new one. */
  lemma InsertField(stored: seq<Field>, g: Field)
    requires StrictWeakOrder(FieldBefore)
    requires Sorted(stored, FieldBefore) && DistinctKeys(stored)
    requires forall h :: h in stored ==> h.key != g.key
    ensures var after := Insert(stored, g, FieldBefore);
      && Sorted(after, FieldBefore) && DistinctKeys(after)
      && forall h :: h in after <==> h in stored || h == g
  {
    var after := Insert(stored, g, FieldBefore);
    assert DistinctKeys(stored + [g]);
    InsertSorted(stored, g, FieldBefore);
    InsertMultiset(stored, g, FieldBefore);
    assert multiset(stored + [g]) == multiset(after);
    assert forall h :: h in after <==> h in multiset(after);
    DistinctKeysPermuted(stored + [g], after);
  }

  lemma NotBeforeStored(keys: seq<string>, i: nat, stored: seq<Field>)
    requires i < |keys| && Sorted(keys, Before) && !IsIndex(keys[i])
    requires forall g :: g in stored ==> g.key in keys[..i]
    ensures forall k :: 0 <= k < |stored| ==> !KeyBefore(keys[i], stored[k].key)
  {
    forall k | 0 <= k < |stored|
      ensures !KeyBefore(keys[i], stored[k].key)
    {
      assert stored[k] in stored;
      var j :| 0 <= j < i && keys[j] == stored[k].key;
    }
  }

  lemma FilledAll(fields: seq<Field>, keys: seq<string>, stored: seq<Field>)
    requires DistinctKeys(fields) && Filled(fields, keys, stored)
    requires forall k :: k in keys <==> k in Keys(fields)
    ensures stored == SortedFields(fields)
  {
    var sorted := SortedFields(fields);
    SortedFieldsFacts(fields);
    forall g | g in SortFieldValues(fields)
      ensures g.key in keys
    {
      var f := SourceField(fields, g);
      var i :| 0 <= i < |fields| && fields[i] == f;
      assert Keys(fields)[i] == g.key;
    }
    DistinctSameElements(stored, sorted);
    forall f, g | f in stored && g in stored && f != g
      ensures FieldBefore(f, g) || FieldBefore(g, f)
    {
      KeyBeforeTotal(f.key, g.key);
    }
    SortedUnique(stored, sorted, FieldBefore);
  }
}
