/** The grammar of JSON texts, written down from RFC 8259 apart from the printer
    and without whitespace, and that canonical text says what its value means. */
module JsonText {
  import opened Prelude
  import opened Ordering
  import opened Json
  import opened JsonMeaning

  // ---- Strings (section 7 of RFC 8259) -------------------------------------

  predicate IsHex(c: char) { '0' <= c <= '9' || 'a' <= c <= 'f' || 'A' <= c <= 'F' }

  function HexValue(c: char): nat
    requires IsHex(c)
  {
    if c <= '9' then c as int - '0' as int
    else if c <= 'F' then c as int - 'A' as int + 10
    else c as int - 'a' as int + 10
  }

  const SHORT_ESCAPES: map<char, char> :=
    map['\"' := '\"', '\\' := '\\', '/' := '/', 'b' := '\U{8}', 'f' := '\U{C}', 'n' := '\U{A}', 'r' := '\U{D}', 't' := '\U{9}']

  /** One character stands for itself, or is escaped. */
  predicate SaysCharacter(piece: string, c: char) {
    || (piece == [c] && c >= ' ' && c != '\"' && c != '\\')
    || (|piece| == 2 && piece[0] == '\\' && piece[1] in SHORT_ESCAPES && SHORT_ESCAPES[piece[1]] == c)
    || (|piece| == 6 && piece[0] == '\\' && piece[1] == 'u'
        && IsHex(piece[2]) && IsHex(piece[3]) && IsHex(piece[4]) && IsHex(piece[5])
        && HexValue(piece[2]) * 4096 + HexValue(piece[3]) * 256 + HexValue(piece[4]) * 16 + HexValue(piece[5]) == c as int)
  }

  predicate SaysCharacters(body: string, s: string) {
    if s == "" then body == ""
    else exists k :: 0 < k <= |body| && SaysCharacter(body[..k], s[0]) && SaysCharacters(body[k..], s[1..])
  }

  function Inside(text: string): string
    requires |text| >= 2
  {
    text[1..|text| - 1]
  }

  predicate Encloses(open: char, text: string, close: char) {
    |text| >= 2 && text[0] == open && text[|text| - 1] == close
  }

  predicate SaysString(text: string, s: string) {
    Encloses('\"', text, '\"') && SaysCharacters(Inside(text), s)
  }

  // ---- Values (sections 3 to 6) --------------------------------------------

  ghost predicate Says(text: string, m: Meaning)
    decreases m, 3, 0
  {
    match m
    case Absent => false
    case MNull => text == "null"
    case MBool(b) => text == if b then "true" else "false"
    case MNum(decimal) => text == decimal
    case MStr(s) => SaysString(text, s)
    case MArr(items) => Encloses('[', text, ']') && SaysItems(Inside(text), m, 0)
    case MObj(members) =>
      && Encloses('{', text, '}')
      && exists keys :: Lists(keys, members) && SaysMembers(Inside(text), m, keys, 0)
  }

  /** The keys of the members, each once. */
  ghost predicate Lists(keys: seq<string>, members: map<string, Meaning>) {
    Distinct(keys) && forall key :: key in keys <==> key in members
  }

  function Comma(n: nat): string { if n == 0 then "" else "," }

  /** The items from place `n` on, with a comma between any two. */
  ghost predicate SaysItems(text: string, m: Meaning, n: nat)
    requires m.MArr? && n <= |m.items|
    decreases m, 1, |m.items| - n
  {
    if n == |m.items| then text == ""
    else exists item, rest :: text == Comma(n) + item + rest && Says(item, m.items[n]) && SaysItems(rest, m, n + 1)
  }

  /** A name, a colon and a value. */
  ghost predicate SaysMember(text: string, m: Meaning, key: string)
    requires m.MObj? && key in m.members
    decreases m, 1, 0
  {
    exists name, value :: text == name + ":" + value && SaysString(name, key) && Says(value, m.members[key])
  }

  ghost predicate SaysMembers(text: string, m: Meaning, keys: seq<string>, n: nat)
    requires m.MObj? && n <= |keys| && forall key :: key in keys ==> key in m.members
    decreases m, 2, |keys| - n
  {
    if n == |keys| then text == ""
    else exists member, rest :: text == Comma(n) + member + rest && SaysMember(member, m, keys[n]) && SaysMembers(rest, m, keys, n + 1)
  }

  // ---- What the printer writes ----------------------------------------------

  lemma HexDigitValue(n: nat)
    requires n < 16
    ensures IsHex(HexDigit(n)) && HexValue(HexDigit(n)) == n
  {
  }

  lemma CharacterSays(c: char)
    ensures SaysCharacter(EscapeCharacter(c), c)
  {
    if c < ' ' {
      HexDigitValue(c as int / 16);
      HexDigitValue(c as int % 16);
      HexDigitValue(0);
    }
  }

  lemma {:induction false} EscapeSays(s: string)
    ensures SaysCharacters(Escape(s), s)
  {
    if s != "" {
      var piece, rest := EscapeCharacter(s[0]), Escape(s[1..]);
      CharacterSays(s[0]);
      EscapeSays(s[1..]);
      assert (piece + rest)[..|piece|] == piece && (piece + rest)[|piece|..] == rest;
    }
  }

  lemma QuoteSays(s: string)
    ensures SaysString(Quote(s), s)
  {
    EscapeSays(s);
    assert Inside(Quote(s)) == Escape(s);
  }

  /** An undefined item is printed as null. */
  function PrintItem(v: Value): string { if v.Undefined? then "null" else Print(v) }

  lemma PrintsItem(items: seq<Value>, n: nat)
    requires n < |items|
    ensures PrintItems(items[n..], n == 0) == Comma(n) + PrintItem(items[n]) + PrintItems(items[n + 1..], false)
  {
    assert items[n..][0] == items[n] && items[n..][1..] == items[n + 1..];
  }

  lemma ItemsStep(item: string, rest: string, m: Meaning, n: nat)
    requires m.MArr? && n < |m.items| && Says(item, m.items[n]) && SaysItems(rest, m, n + 1)
    ensures SaysItems(Comma(n) + item + rest, m, n)
  {
  }

  lemma {:induction false} ItemsSay(items: seq<Value>, m: Meaning, n: nat)
    requires m.MArr? && n <= |m.items| == |items|
    requires forall i :: 0 <= i < |items| ==> Says(PrintItem(items[i]), m.items[i])
    ensures SaysItems(PrintItems(items[n..], n == 0), m, n)
    decreases |items| - n
  {
    if n < |items| {
      ItemsSay(items, m, n + 1);
      PrintsItem(items, n);
      ItemsStep(PrintItem(items[n]), PrintItems(items[n + 1..], false), m, n);
    }
  }

  /** The keys of the fields that are printed. */
  function PrintedKeys(fields: seq<Field>): seq<string> {
    if fields == [] then []
    else if fields[0].value.Undefined? then PrintedKeys(fields[1..])
    else [fields[0].key] + PrintedKeys(fields[1..])
  }

  /** Every field that is printed is a member, and its value says the member. */
  ghost predicate FieldsSound(fields: seq<Field>, m: Meaning)
    requires m.MObj?
  {
    forall f :: f in fields && !f.value.Undefined? ==> f.key in m.members && Says(Print(f.value), m.members[f.key])
  }

  lemma {:induction false} PrintedKeysAre(fields: seq<Field>, m: Meaning)
    requires m.MObj? && FieldsSound(fields, m)
    ensures forall key :: key in PrintedKeys(fields) ==> key in m.members
    ensures forall key :: key in PrintedKeys(fields) <==> exists f :: f in fields && !f.value.Undefined? && f.key == key
    ensures DistinctKeys(fields) ==> Distinct(PrintedKeys(fields))
  {
    if fields != [] {
      assert fields == [fields[0]] + fields[1..];
      PrintedKeysAre(fields[1..], m);
      if DistinctKeys(fields) {
        assert fields[0].key !in PrintedKeys(fields[1..]);
      }
    }
  }

  lemma FieldSays(f: Field, m: Meaning)
    requires m.MObj? && f.key in m.members && Says(Print(f.value), m.members[f.key])
    ensures SaysMember(Quote(f.key) + ":" + Print(f.value), m, f.key)
  {
    QuoteSays(f.key);
  }

  lemma MembersStep(member: string, rest: string, m: Meaning, keys: seq<string>, n: nat)
    requires m.MObj? && n < |keys| && forall key :: key in keys ==> key in m.members
    requires SaysMember(member, m, keys[n]) && SaysMembers(rest, m, keys, n + 1)
    ensures SaysMembers(Comma(n) + member + rest, m, keys, n)
  {
  }

  lemma SoundTail(fields: seq<Field>, m: Meaning)
    requires fields != [] && m.MObj? && FieldsSound(fields, m)
    ensures FieldsSound(fields[1..], m)
    ensures !fields[0].value.Undefined? ==> fields[0].key in m.members && Says(Print(fields[0].value), m.members[fields[0].key])
  {
  }

  lemma SkipsField(fields: seq<Field>, first: bool)
    requires fields != [] && fields[0].value.Undefined?
    ensures PrintFields(fields, first) == PrintFields(fields[1..], first)
  {
  }

  lemma PrintedKeysTail(fields: seq<Field>, keys: seq<string>, n: nat)
    requires fields != [] && !fields[0].value.Undefined? && n <= |keys| && PrintedKeys(fields) == keys[n..]
    ensures n < |keys| && keys[n] == fields[0].key && PrintedKeys(fields[1..]) == keys[n + 1..]
  {
    assert keys[n..][0] == fields[0].key;
    assert PrintedKeys(fields)[1..] == PrintedKeys(fields[1..]);
  }

  lemma {:induction false} FieldsSay(fields: seq<Field>, m: Meaning, keys: seq<string>, n: nat)
    requires m.MObj? && FieldsSound(fields, m) && n <= |keys| && PrintedKeys(fields) == keys[n..]
    requires forall key :: key in keys ==> key in m.members
    ensures SaysMembers(PrintFields(fields, n == 0), m, keys, n)
    decreases |fields|
  {
    if fields != [] {
      var f, rest := fields[0], fields[1..];
      SoundTail(fields, m);
      if f.value.Undefined? {
        SkipsField(fields, n == 0);
        FieldsSay(rest, m, keys, n);
      } else {
        PrintedKeysTail(fields, keys, n);
        FieldsSay(rest, m, keys, n + 1);
        FieldSays(f, m);
        PrintsField(fields, n);
        MembersStep(Quote(f.key) + ":" + Print(f.value), PrintFields(rest, false), m, keys, n);
      }
    }
  }

  lemma PrintsField(fields: seq<Field>, n: nat)
    requires fields != [] && !fields[0].value.Undefined?
    ensures PrintFields(fields, n == 0)
         == Comma(n) + (Quote(fields[0].key) + ":" + Print(fields[0].value)) + PrintFields(fields[1..], false)
  {
    var start, name, value, rest := Comma(n), Quote(fields[0].key), Print(fields[0].value), PrintFields(fields[1..], false);
    assert start + name + ":" + value + rest == start + (name + ":" + value) + rest;
  }

  lemma EnclosedSays(body: string, m: Meaning, keys: seq<string>)
    requires m.MObj? && Lists(keys, m.members) && SaysMembers(body, m, keys, 0)
    ensures Says("{" + body + "}", m)
  {
    assert Inside("{" + body + "}") == body;
  }

  lemma PrintedKeysList(fields: seq<Field>, m: Meaning)
    requires m.MObj? && DistinctKeys(fields) && FieldsSound(fields, m)
    requires forall key :: key in m.members ==> exists f :: f in fields && !f.value.Undefined? && f.key == key
    ensures Lists(PrintedKeys(fields), m.members)
  {
    PrintedKeysAre(fields, m);
  }

  lemma PrintsObject(fields: seq<Field>)
    ensures Print(Obj(fields)) == "{" + PrintFields(fields, true) + "}"
  {
  }

  lemma ObjectSays(fields: seq<Field>, m: Meaning)
    requires m.MObj? && DistinctKeys(fields) && FieldsSound(fields, m)
    requires forall key :: key in m.members ==> exists f :: f in fields && !f.value.Undefined? && f.key == key
    ensures Says(Print(Obj(fields)), m)
  {
    var keys := PrintedKeys(fields);
    PrintedKeysList(fields, m);
    PrintsObject(fields);
    assert keys[0..] == keys;
    FieldsSay(fields, m, keys, 0);
    EnclosedSays(PrintFields(fields, true), m, keys);
  }

  // ---- The law --------------------------------------------------------------

  lemma SortedSound(fields: seq<Field>)
    requires WellFormed(Obj(fields))
    requires forall f :: f in fields && !f.value.Undefined? ==> Says(Canonical(f.value), MeaningOf(f.value))
    ensures var sorted, m := SortedFields(fields), MObj(Members(fields));
      && FieldsSound(sorted, m)
      && forall key :: key in m.members ==> exists g :: g in sorted && !g.value.Undefined? && g.key == key
  {
    var sorted, m := SortedFields(fields), MObj(Members(fields));
    SortedFieldsFacts(fields);
    forall g | g in sorted && !g.value.Undefined?
      ensures g.key in m.members && Says(Print(g.value), m.members[g.key])
    {
      var f := SourceField(fields, g);
      SortKeysMeaning(f.value);
      MembersOfField(fields, f);
    }
    forall key | key in m.members
      ensures exists g :: g in sorted && !g.value.Undefined? && g.key == key
    {
      var f := MemberField(fields, key);
      SortKeysMeaning(f.value);
      SortedFieldValue(fields, f);
      assert Field(f.key, SortKeys(f.value)) in sorted;
    }
  }

  /** The canonical text of a value is a JSON text that says just what the value
      means. */
  lemma {:induction false} CanonicalSays(v: Value)
    requires WellFormed(v) && !v.Undefined?
    ensures Says(Canonical(v), MeaningOf(v))
    decreases v
  {
    match v
    case Null =>
    case Bool(_) =>
    case Num(_) =>
    case Str(s) => QuoteSays(s);
    case Arr(items) =>
      forall i | 0 <= i < |items|
        ensures Says(PrintItem(SortItems(items)[i]), ItemMeanings(items)[i])
      {
        SortKeysMeaning(items[i]);
        if !items[i].Undefined? {
          CanonicalSays(items[i]);
        }
      }
      ArraySays(SortItems(items), MeaningOf(v));
    case Obj(fields) =>
      forall f | f in fields && !f.value.Undefined?
        ensures Says(Canonical(f.value), MeaningOf(f.value))
      {
        CanonicalSays(f.value);
      }
      SortedSound(fields);
      SortedFieldsFacts(fields);
      ObjectSays(SortedFields(fields), MeaningOf(v));
  }

  lemma ArraySays(items: seq<Value>, m: Meaning)
    requires m.MArr? && |m.items| == |items|
    requires forall i :: 0 <= i < |items| ==> Says(PrintItem(items[i]), m.items[i])
    ensures Says(Print(Arr(items)), m)
  {
    assert items[0..] == items;
    ItemsSay(items, m, 0);
    assert Inside(Print(Arr(items))) == PrintItems(items, true);
  }

  /** In canonical text the keys of an object ascend: those that name an array
      index by their value, then all others by their characters. */
  lemma KeysAscend(fields: seq<Field>, i: nat, j: nat)
    requires DistinctKeys(fields) && i < j < |SortedFields(fields)|
    ensures Canonical(Obj(fields)) == Print(Obj(SortedFields(fields)))
    ensures var a, b := SortedFields(fields)[i].key, SortedFields(fields)[j].key;
      && a != PROTO && b != PROTO
      && (IsIndex(a) && IsIndex(b) ==> |a| < |b| || (|a| == |b| && Before(a, b)))
      && (IsIndex(a) != IsIndex(b) ==> IsIndex(a))
      && (!IsIndex(a) && !IsIndex(b) ==> Before(a, b))
  {
    var sorted := SortedFields(fields);
    SortedFieldsFacts(fields);
    KeyBeforeTotal(sorted[i].key, sorted[j].key);
    assert !FieldBefore(sorted[j], sorted[i]);
    var f := SourceField(fields, sorted[i]);
    var g := SourceField(fields, sorted[j]);
  }
}
