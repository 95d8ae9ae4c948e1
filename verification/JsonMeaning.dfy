/** Sorting keys keeps the meaning of a value and forgets everything else. */
module JsonMeaning {
  import opened Prelude
  import opened Ordering
  import opened Json
  import opened JsonCanonical

  // ---- Key order ---------------------------------------------------------

  lemma KeyBeforeIsStrictOrder()
    ensures StrictWeakOrder(KeyBefore)
    ensures StrictWeakOrder(FieldBefore)
  {
    BeforeIsStrictOrder();
    forall x, y, z: string
      ensures !KeyBefore(x, x)
      ensures KeyBefore(x, y) && KeyBefore(y, z) ==> KeyBefore(x, z)
      ensures KeyBefore(x, z) ==> KeyBefore(x, y) || KeyBefore(y, z)
    {
      assert !Before(x, x);
      assert Before(x, y) && Before(y, z) ==> Before(x, z);
      assert Before(x, z) ==> Before(x, y) || Before(y, z);
    }
  }

  lemma KeyBeforeTotal(a: string, b: string)
    ensures a == b || KeyBefore(a, b) || KeyBefore(b, a)
  {
    BeforeTotal(a, b);
  }

  // ---- Fields as a set ---------------------------------------------------

  predicate Visible(f: Field) { !f.value.Undefined? && f.key != PROTO }

  lemma {:induction false} MembersOfField(fields: seq<Field>, f: Field)
    requires DistinctKeys(fields) && f in fields
    ensures f.key in Members(fields) <==> Visible(f)
    ensures Visible(f) ==> Members(fields)[f.key] == MeaningOf(f.value)
  {
    if f == fields[0] {
      if f.key in Members(fields[1..]) {
        var g := MemberField(fields[1..], f.key);
      }
    } else {
      MembersOfField(fields[1..], f);
    }
  }

  lemma {:induction false} MemberField(fields: seq<Field>, key: string) returns (f: Field)
    requires key in Members(fields)
    ensures f in fields && f.key == key && Visible(f)
  {
    if fields[0].key == key && Visible(fields[0]) {
      f := fields[0];
    } else {
      f := MemberField(fields[1..], key);
    }
  }

  lemma {:induction false} SortedFieldValue(fields: seq<Field>, f: Field)
    requires f in fields && f.key != PROTO
    ensures Field(f.key, SortKeys(f.value)) in SortFieldValues(fields)
  {
    if f != fields[0] {
      SortedFieldValue(fields[1..], f);
    }
  }

  lemma {:induction false} SourceField(fields: seq<Field>, g: Field) returns (f: Field)
    requires g in SortFieldValues(fields)
    ensures f in fields && f.key == g.key && f.key != PROTO && g.value == SortKeys(f.value)
  {
    if g == Field(fields[0].key, SortKeys(fields[0].value)) && fields[0].key != PROTO {
      f := fields[0];
    } else {
      f := SourceField(fields[1..], g);
    }
  }

  lemma {:induction false} SortFieldValuesDistinct(fields: seq<Field>)
    requires DistinctKeys(fields)
    ensures DistinctKeys(SortFieldValues(fields))
  {
    if fields != [] {
      SortFieldValuesDistinct(fields[1..]);
      var rest := SortFieldValues(fields[1..]);
      forall i | 0 <= i < |rest|
        ensures rest[i].key != fields[0].key
      {
        var f := SourceField(fields[1..], rest[i]);
      }
    }
  }

  /** Distinct keys survive any reordering. */
  lemma DistinctKeysPermuted(a: seq<Field>, b: seq<Field>)
    requires DistinctKeys(a) && multiset(a) == multiset(b)
    ensures DistinctKeys(b)
  {
    forall i, j | 0 <= i < j < |b|
      ensures b[i].key != b[j].key
    {
      if b[i].key == b[j].key {
        assert b[i] in multiset(b) && b[j] in multiset(b);
        assert b[i] in a && b[j] in a;
        TwiceInMultiset(b, i, j);
        KeyOnce(a, b[i]);
      }
    }
  }

  lemma TwiceInMultiset(b: seq<Field>, i: nat, j: nat)
    requires i < j < |b| && b[i] == b[j]
    ensures multiset(b)[b[i]] >= 2
  {
    assert b == b[..j] + [b[j]] + b[j + 1..];
    assert b[i] in b[..j];
  }

  lemma KeyOnce(a: seq<Field>, f: Field)
    requires DistinctKeys(a)
    ensures multiset(a)[f] <= 1
  {
    DistinctMultiset(a, f);
  }

  /** The canonical field list of an object. */
  function SortedFields(fields: seq<Field>): seq<Field> {
    Sort(SortFieldValues(fields), FieldBefore)
  }

  lemma SortedFieldsFacts(fields: seq<Field>)
    requires DistinctKeys(fields)
    ensures DistinctKeys(SortedFields(fields))
    ensures Sorted(SortedFields(fields), FieldBefore)
    ensures forall g :: g in SortedFields(fields) <==> g in SortFieldValues(fields)
  {
    KeyBeforeIsStrictOrder();
    SortFieldValuesDistinct(fields);
    var raw := SortFieldValues(fields);
    SortMultiset(raw, FieldBefore);
    SortSorted(raw, FieldBefore);
    DistinctKeysPermuted(raw, SortedFields(fields));
    forall g
      ensures g in SortedFields(fields) <==> g in raw
    {
      SortElements(raw, FieldBefore, g);
    }
  }

  // ---- Sorting keeps the meaning -----------------------------------------

  lemma {:induction false} SortKeysMeaning(v: Value)
    requires WellFormed(v)
    ensures WellFormed(SortKeys(v)) && MeaningOf(SortKeys(v)) == MeaningOf(v)
    ensures SortKeys(v).Undefined? <==> v.Undefined?
  {
    match v
    case Arr(items) =>
      forall i | 0 <= i < |items|
        ensures WellFormed(SortKeys(items[i])) && MeaningOf(SortKeys(items[i])) == MeaningOf(items[i])
        ensures SortKeys(items[i]).Undefined? <==> items[i].Undefined?
      {
        SortKeysMeaning(items[i]);
      }
      assert ItemMeanings(SortItems(items)) == ItemMeanings(items);
    case Obj(fields) =>
      forall f | f in fields
        ensures WellFormed(SortKeys(f.value)) && MeaningOf(SortKeys(f.value)) == MeaningOf(f.value)
        ensures SortKeys(f.value).Undefined? <==> f.value.Undefined?
      {
        SortKeysMeaning(f.value);
      }
      SortedFieldsMeaning(fields);
    case _ =>
  }

  lemma SortedFieldsMeaning(fields: seq<Field>)
    requires DistinctKeys(fields)
    requires forall f :: f in fields ==> WellFormed(SortKeys(f.value)) && MeaningOf(SortKeys(f.value)) == MeaningOf(f.value)
                                         && (SortKeys(f.value).Undefined? <==> f.value.Undefined?)
    ensures DistinctKeys(SortedFields(fields)) && Members(SortedFields(fields)) == Members(fields)
    ensures forall i :: 0 <= i < |SortedFields(fields)| ==> WellFormed(SortedFields(fields)[i].value)
  {
    var sorted := SortedFields(fields);
    SortedFieldsFacts(fields);
    forall i | 0 <= i < |sorted|
      ensures WellFormed(sorted[i].value)
    {
      var f := SourceField(fields, sorted[i]);
    }
    forall key
      ensures key in Members(fields) ==> key in Members(sorted) && Members(sorted)[key] == Members(fields)[key]
      ensures key in Members(sorted) ==> key in Members(fields)
    {
      if key in Members(fields) {
        var f := MemberField(fields, key);
        MembersOfField(fields, f);
        SortedFieldValue(fields, f);
        MembersOfField(sorted, Field(f.key, SortKeys(f.value)));
      }
      if key in Members(sorted) {
        var g := MemberField(sorted, key);
        var f := SourceField(fields, g);
        MembersOfField(fields, f);
      }
    }
  }

  lemma {:induction false} SortKeysIdempotent(v: Value)
    requires WellFormed(v)
    ensures SortKeys(SortKeys(v)) == SortKeys(v)
  {
    match v
    case Arr(items) =>
      forall i | 0 <= i < |items|
        ensures SortKeys(SortKeys(items[i])) == SortKeys(items[i])
      {
        SortKeysIdempotent(items[i]);
      }
      assert SortItems(SortItems(items)) == SortItems(items);
    case Obj(fields) =>
      SortedFieldsFacts(fields);
      var sorted := SortedFields(fields);
      forall g | g in sorted
        ensures g.key != PROTO && SortKeys(g.value) == g.value
      {
        var f := SourceField(fields, g);
        SortKeysIdempotent(f.value);
      }
      SortFieldValuesNoop(sorted);
      SortIdempotent(sorted, FieldBefore);
    case _ =>
  }

  lemma {:induction false} SortFieldValuesNoop(fields: seq<Field>)
    requires forall g :: g in fields ==> g.key != PROTO && SortKeys(g.value) == g.value
    ensures SortFieldValues(fields) == fields
  {
    if fields != [] {
      var f, rest := fields[0], fields[1..];
      assert fields == [f] + rest;
      assert f.key != PROTO && SortKeys(f.value) == f.value;
      SortFieldValuesNoop(rest);
      assert SortFieldValues(fields) == [f] + SortFieldValues(rest);
    }
  }

  // ---- The meaning fixes the text ----------------------------------------

  /** What the fields print, key by key. */
  function Shown(fields: seq<Field>): map<string, string> {
    if fields == [] then map[]
    else if fields[0].value.Undefined? then Shown(fields[1..])
    else Shown(fields[1..])[fields[0].key := Print(fields[0].value)]
  }

  lemma {:induction false} ShownField(fields: seq<Field>, key: string) returns (f: Field)
    requires DistinctKeys(fields) && key in Shown(fields)
    ensures f in fields && f.key == key && !f.value.Undefined? && Shown(fields)[key] == Print(f.value)
  {
    if fields[0].key == key && !fields[0].value.Undefined? {
      f := fields[0];
    } else {
      f := ShownField(fields[1..], key);
    }
  }

  lemma {:induction false} ShownOfField(fields: seq<Field>, f: Field)
    requires DistinctKeys(fields) && f in fields && !f.value.Undefined?
    ensures f.key in Shown(fields) && Shown(fields)[f.key] == Print(f.value)
  {
    if f != fields[0] {
      ShownOfField(fields[1..], f);
    }
  }

  lemma ShownTail(fields: seq<Field>)
    requires DistinctKeys(fields) && fields != [] && !fields[0].value.Undefined?
    ensures Shown(fields[1..]) == Shown(fields) - {fields[0].key}
  {
    if fields[0].key in Shown(fields[1..]) {
      var f := ShownField(fields[1..], fields[0].key);
    }
  }

  lemma {:induction false} PrintFieldsSame(fs: seq<Field>, gs: seq<Field>, first: bool)
    requires DistinctKeys(fs) && DistinctKeys(gs)
    requires Sorted(fs, FieldBefore) && Sorted(gs, FieldBefore)
    requires Shown(fs) == Shown(gs)
    ensures PrintFields(fs, first) == PrintFields(gs, first)
    decreases |fs| + |gs|
  {
    assert gs != [] && !gs[0].value.Undefined? ==> gs[0].key in Shown(gs);
    if fs != [] && fs[0].value.Undefined? {
      PrintFieldsSame(fs[1..], gs, first);
    } else if gs != [] && gs[0].value.Undefined? {
      PrintFieldsSame(fs, gs[1..], first);
    } else if fs != [] {
      assert fs[0].key in Shown(gs);
      NotEarlier(fs, gs);
      NotEarlier(gs, fs);
      KeyBeforeTotal(fs[0].key, gs[0].key);
      ShownTail(fs);
      ShownTail(gs);
      PrintFieldsSame(fs[1..], gs[1..], false);
    }
  }

  lemma NotEarlier(fs: seq<Field>, gs: seq<Field>)
    requires fs != [] && gs != [] && !fs[0].value.Undefined?
    requires DistinctKeys(gs) && Sorted(gs, FieldBefore) && fs[0].key in Shown(gs)
    ensures !KeyBefore(fs[0].key, gs[0].key)
  {
    var g := ShownField(gs, fs[0].key);
    var i :| 0 <= i < |gs| && gs[i] == g;
    KeyBeforeIsStrictOrder();
    if i > 0 {
      assert !FieldBefore(gs[i], gs[0]);
    }
  }

  lemma {:induction false} MeaningFixesText(a: Value, b: Value)
    requires WellFormed(a) && WellFormed(b) && MeaningOf(a) == MeaningOf(b)
    ensures Canonical(a) == Canonical(b)
    decreases a
  {
    match a
    case Arr(items) => ItemsFixText(items, b.items, true);
    case Obj(fields) =>
      forall f, g | f in fields && g in b.fields && MeaningOf(f.value) == MeaningOf(g.value)
        ensures Canonical(f.value) == Canonical(g.value)
      {
        MeaningFixesText(f.value, g.value);
      }
      ObjectShown(fields, b.fields);
      ObjectShown(b.fields, fields);
      assert Shown(SortedFields(fields)) == Shown(SortedFields(b.fields));
      SortedFieldsFacts(fields);
      SortedFieldsFacts(b.fields);
      PrintFieldsSame(SortedFields(fields), SortedFields(b.fields), true);
    case _ =>
  }

  lemma {:induction false} ItemsFixText(xs: seq<Value>, ys: seq<Value>, first: bool)
    requires forall i :: 0 <= i < |xs| ==> WellFormed(xs[i])
    requires forall i :: 0 <= i < |ys| ==> WellFormed(ys[i])
    requires ItemMeanings(xs) == ItemMeanings(ys)
    ensures PrintItems(SortItems(xs), first) == PrintItems(SortItems(ys), first)
    decreases xs
  {
    if xs != [] {
      assert ItemMeanings(xs)[0] == ItemMeanings(ys)[0];
      assert ItemMeanings(xs[1..]) == ItemMeanings(xs)[1..] == ItemMeanings(ys)[1..] == ItemMeanings(ys[1..]);
      SortKeysMeaning(xs[0]);
      SortKeysMeaning(ys[0]);
      if !xs[0].Undefined? && !ys[0].Undefined? {
        MeaningFixesText(xs[0], ys[0]);
      }
      ItemsFixText(xs[1..], ys[1..], false);
    }
  }

  lemma ObjectShown(fs: seq<Field>, gs: seq<Field>)
    requires DistinctKeys(fs) && DistinctKeys(gs) && Members(fs) == Members(gs)
    requires forall f :: f in fs ==> WellFormed(f.value)
    requires forall g :: g in gs ==> WellFormed(g.value)
    requires forall f, g :: f in fs && g in gs && MeaningOf(f.value) == MeaningOf(g.value) ==> Canonical(f.value) == Canonical(g.value)
    ensures forall key :: key in Shown(SortedFields(fs)) ==>
      key in Shown(SortedFields(gs)) && Shown(SortedFields(gs))[key] == Shown(SortedFields(fs))[key]
  {
    SortedFieldsFacts(fs);
    SortedFieldsFacts(gs);
    forall key | key in Shown(SortedFields(fs))
      ensures key in Shown(SortedFields(gs)) && Shown(SortedFields(gs))[key] == Shown(SortedFields(fs))[key]
    {
      var p := ShownField(SortedFields(fs), key);
      var f := SourceField(fs, p);
      SortKeysMeaning(f.value);
      MembersOfField(fs, f);
      var g := MemberField(gs, f.key);
      MembersOfField(gs, g);
      SortedFieldValue(gs, g);
      SortKeysMeaning(g.value);
      ShownOfField(SortedFields(gs), Field(g.key, SortKeys(g.value)));
    }
  }

  // ---- The law -----------------------------------------------------------

  /** Two values have the same canonical text exactly when they have the same
      meaning: key order, undefined fields and nothing else is forgotten. */
  lemma CanonicalIffMeaning(a: Value, b: Value)
    requires WellFormed(a) && WellFormed(b)
    ensures Canonical(a) == Canonical(b) <==> MeaningOf(a) == MeaningOf(b)
  {
    if MeaningOf(a) == MeaningOf(b) {
      MeaningFixesText(a, b);
    }
    if Canonical(a) == Canonical(b) {
      SortKeysMeaning(a);
      SortKeysMeaning(b);
      if !a.Undefined? {
        PrintOpens(SortKeys(a));
      }
      if !b.Undefined? {
        PrintOpens(SortKeys(b));
      }
      if !a.Undefined? {
        assert Print(SortKeys(a)) + "" == Print(SortKeys(b)) + "";
        ValueCancel(SortKeys(a), SortKeys(b), "", "");
      }
    }
  }
}
