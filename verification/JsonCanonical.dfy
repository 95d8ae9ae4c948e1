/** Canonical JSON text identifies the meaning of a value. */
module JsonCanonical {
  import opened Json

  // ---- The text can be read back -----------------------------------------

  lemma CharacterCancel(c: char, d: char, p: string, q: string)
    requires EscapeCharacter(c) + p == EscapeCharacter(d) + q
    ensures c == d && p == q
  {
    var e, f := EscapeCharacter(c), EscapeCharacter(d);
    assert e[0] == (e + p)[0] == f[0];
    if e[0] == '\\' {
      assert e[1] == (e + p)[1] == f[1];
      if e[1] == 'u' {
        assert e[4] == (e + p)[4] == f[4];
        assert e[5] == (e + p)[5] == f[5];
      }
    }
    assert |e| == |f|;
    assert p == (e + p)[|e|..] == q;
  }

  lemma EscapeOpens(c: char)
    ensures EscapeCharacter(c) != "" && EscapeCharacter(c)[0] != '\"'
  {
  }

  lemma HeadOf(e: string, rest: string, x: string)
    requires e != ""
    ensures e + rest + "\"" + x == e + (rest + "\"" + x)
    ensures (e + rest + "\"" + x)[0] == e[0]
  {
  }

  lemma ClosingQuote(s: string, x: string, text: string)
    requires text == Escape(s) + "\"" + x
    ensures text[0] == '\"' <==> s == ""
    ensures s == "" ==> text[1..] == x
    ensures s != "" ==> text == EscapeCharacter(s[0]) + (Escape(s[1..]) + "\"" + x)
  {
    if s != "" {
      EscapeOpens(s[0]);
      HeadOf(EscapeCharacter(s[0]), Escape(s[1..]), x);
    }
  }

  lemma {:induction false} EscapeCancel(s: string, t: string, x: string, y: string)
    requires Escape(s) + "\"" + x == Escape(t) + "\"" + y
    ensures s == t && x == y
  {
    var text := Escape(s) + "\"" + x;
    ClosingQuote(s, x, text);
    ClosingQuote(t, y, text);
    if s != "" {
      var p, q := Escape(s[1..]) + "\"" + x, Escape(t[1..]) + "\"" + y;
      CharacterCancel(s[0], t[0], p, q);
      EscapeCancel(s[1..], t[1..], x, y);
      assert s == [s[0]] + s[1..] && t == [t[0]] + t[1..];
    }
  }

  lemma QuoteCancel(s: string, t: string, x: string, y: string)
    requires Quote(s) + x == Quote(t) + y
    ensures s == t && x == y
  {
    assert (Quote(s) + x)[1..] == Escape(s) + "\"" + x;
    assert (Quote(t) + y)[1..] == Escape(t) + "\"" + y;
    EscapeCancel(s, t, x, y);
  }

  /** Text that may follow a value: nothing, or a closing or separating mark. */
  predicate Follows(x: string) {
    x == "" || x[0] in ",]}"
  }

  function CharacterAt(s: string, i: int): string {
    if 0 <= i < |s| then [s[i]] else ""
  }

  lemma NumberLength(s: string, t: string, x: string, y: string)
    requires forall i :: 0 <= i < |t| ==> t[i] in NUMBER_CHARACTERS
    requires Follows(x) && s + x == t + y
    ensures |t| <= |s|
  {
    var k := |s|;
    assert CharacterAt(s + x, k) == CharacterAt(x, 0);
    assert CharacterAt(t + y, k) == if k < |t| then CharacterAt(t, k) else CharacterAt(y, k - |t|);
  }

  lemma NumberCancel(s: string, t: string, x: string, y: string)
    requires forall i :: 0 <= i < |s| ==> s[i] in NUMBER_CHARACTERS
    requires forall i :: 0 <= i < |t| ==> t[i] in NUMBER_CHARACTERS
    requires Follows(x) && Follows(y) && s + x == t + y
    ensures s == t && x == y
  {
    NumberLength(s, t, x, y);
    NumberLength(t, s, y, x);
    assert s == (s + x)[..|s|] && t == (t + y)[..|t|];
    assert x == (s + x)[|s|..] && y == (t + y)[|t|..];
  }

  /** The first character tells which kind of value follows. */
  function Opening(v: Value): string {
    match v
    case Undefined => ""
    case Null => "n"
    case Bool(b) => if b then "t" else "f"
    case Num(t) => NUMBER_CHARACTERS
    case Str(s) => "\""
    case Arr(items) => "["
    case Obj(fields) => "{"
  }

  lemma PrintOpens(v: Value)
    requires WellFormed(v) && !v.Undefined?
    ensures Print(v) != "" && Print(v)[0] in Opening(v)
  {
  }

  lemma SameKind(a: Value, b: Value, x: string, y: string)
    requires WellFormed(a) && !a.Undefined? && WellFormed(b) && !b.Undefined?
    requires Print(a) + x == Print(b) + y
    ensures a.Null? == b.Null? && a.Bool? == b.Bool? && a.Num? == b.Num?
    ensures a.Str? == b.Str? && a.Arr? == b.Arr? && a.Obj? == b.Obj?
    ensures a.Bool? ==> a.flag == b.flag
  {
    PrintOpens(a);
    PrintOpens(b);
    SameOpening(Print(a), Print(b), x, y);
    OpeningTells(a, b, Print(a)[0]);
  }

  lemma SameOpening(s: string, t: string, x: string, y: string)
    requires s != "" && t != "" && s + x == t + y
    ensures s[0] == t[0]
  {
    assert s[0] == (s + x)[0] == (t + y)[0] == t[0];
  }

  lemma OpeningTells(a: Value, b: Value, c: char)
    requires c in Opening(a) && c in Opening(b)
    ensures a.Null? == b.Null? && a.Bool? == b.Bool? && a.Num? == b.Num?
    ensures a.Str? == b.Str? && a.Arr? == b.Arr? && a.Obj? == b.Obj?
    ensures a.Bool? ==> a.flag == b.flag
  {
  }

  /** Printed text has one reading: from two equal texts, equal meanings and
      equal remainders. */
  lemma {:induction false} ValueCancel(a: Value, b: Value, x: string, y: string)
    requires WellFormed(a) && !a.Undefined? && WellFormed(b) && !b.Undefined?
    requires Follows(x) && Follows(y) && Print(a) + x == Print(b) + y
    ensures MeaningOf(a) == MeaningOf(b) && x == y
    decreases |Print(a)|, 0
  {
    SameKind(a, b, x, y);
    match a
    case Null => DropEqual(Print(a), x, y);
    case Bool(_) => DropEqual(Print(a), x, y);
    case Num(t) => NumberCancel(t, b.decimal, x, y);
    case Str(t) => QuoteCancel(t, b.text, x, y);
    case Arr(items) =>
      Unbracket("[", PrintItems(items, true), "]", x);
      Unbracket("[", PrintItems(b.items, true), "]", y);
      ItemsCancel(items, b.items, true, x, y);
    case Obj(fields) =>
      Unbracket("{", PrintFields(fields, true), "}", x);
      Unbracket("{", PrintFields(b.fields, true), "}", y);
      FieldsCancel(fields, b.fields, true, x, y);
  }

  lemma DropEqual(s: string, x: string, y: string)
    requires s + x == s + y
    ensures x == y
  {
    assert x == (s + x)[|s|..] == (s + y)[|s|..] == y;
  }

  lemma Unbracket(open: string, s: string, close: string, x: string)
    requires |open| == 1
    ensures (open + s + close + x)[1..] == s + close + x
  {
  }

  function AsItem(v: Value): Value { if v.Undefined? then Null else v }

  lemma Regroup(sep: string, item: string, tail: string, close: string, x: string)
    ensures sep + item + tail + close + x == sep + (item + (tail + close + x))
  {
  }

  lemma FirstCharacter(sep: string, item: string, rest: string)
    requires item != "" && (sep == "" || sep == ",")
    ensures (sep + (item + rest))[0] == if sep == "" then item[0] else ','
  {
  }

  lemma ItemsStart(xs: seq<Value>, first: bool, x: string, text: string)
    requires forall i :: 0 <= i < |xs| ==> WellFormed(xs[i])
    requires text == PrintItems(xs, first) + "]" + x
    ensures text[0] == ']' <==> xs == []
    ensures xs == [] ==> text[1..] == x
    ensures xs != [] ==>
      text == Separator(first) + (Print(AsItem(xs[0])) + (PrintItems(xs[1..], false) + "]" + x))
  {
    if xs != [] {
      var item, tail := Print(AsItem(xs[0])), PrintItems(xs[1..], false);
      Regroup(Separator(first), item, tail, "]", x);
      PrintOpens(AsItem(xs[0]));
      FirstCharacter(Separator(first), item, tail + "]" + x);
    }
  }

  lemma ItemsFollow(xs: seq<Value>, x: string)
    ensures Follows(PrintItems(xs, false) + "]" + x)
  {
  }

  lemma {:induction false} ItemsCancel(xs: seq<Value>, ys: seq<Value>, first: bool, x: string, y: string)
    requires forall i :: 0 <= i < |xs| ==> WellFormed(xs[i])
    requires forall i :: 0 <= i < |ys| ==> WellFormed(ys[i])
    requires PrintItems(xs, first) + "]" + x == PrintItems(ys, first) + "]" + y
    ensures ItemMeanings(xs) == ItemMeanings(ys) && x == y
    decreases |PrintItems(xs, first)|, 1
  {
    var text := PrintItems(xs, first) + "]" + x;
    ItemsStart(xs, first, x, text);
    ItemsStart(ys, first, y, text);
    if xs != [] {
      var p, q := PrintItems(xs[1..], false) + "]" + x, PrintItems(ys[1..], false) + "]" + y;
      PrintOpens(AsItem(xs[0]));
      ItemsFollow(xs[1..], x);
      ItemsFollow(ys[1..], y);
      DropEqual(Separator(first), Print(AsItem(xs[0])) + p, Print(AsItem(ys[0])) + q);
      ValueCancel(AsItem(xs[0]), AsItem(ys[0]), p, q);
      ItemsCancel(xs[1..], ys[1..], false, x, y);
    }
  }

  lemma FieldsStart(fs: seq<Field>, first: bool, x: string, text: string)
    requires forall i :: 0 <= i < |fs| ==> WellFormed(fs[i].value)
    requires text == PrintFields(fs, first) + "}" + x
    requires fs != [] ==> !fs[0].value.Undefined?
    ensures text[0] == '}' <==> fs == []
    ensures fs == [] ==> text[1..] == x
    ensures fs != [] ==>
      var rest := PrintFields(fs[1..], false) + "}" + x;
      text == Separator(first) + (Quote(fs[0].key) + (":" + (Print(fs[0].value) + rest)))
  {
    if fs != [] {
      var key, value, tail := Quote(fs[0].key), Print(fs[0].value), PrintFields(fs[1..], false);
      RegroupField(Separator(first), key, value, tail, x);
      FirstCharacter(Separator(first), key, ":" + (value + (tail + "}" + x)));
    }
  }

  lemma RegroupField(sep: string, key: string, value: string, tail: string, x: string)
    ensures sep + key + ":" + value + tail + "}" + x == sep + (key + (":" + (value + (tail + "}" + x))))
  {
  }

  lemma FieldsFollow(fs: seq<Field>, x: string)
    ensures Follows(PrintFields(fs, false) + "}" + x)
  {
  }

  lemma {:induction false} FieldsCancel(fs: seq<Field>, gs: seq<Field>, first: bool, x: string, y: string)
    requires forall i :: 0 <= i < |fs| ==> WellFormed(fs[i].value)
    requires forall i :: 0 <= i < |gs| ==> WellFormed(gs[i].value)
    requires PrintFields(fs, first) + "}" + x == PrintFields(gs, first) + "}" + y
    ensures Members(fs) == Members(gs) && x == y
    decreases |PrintFields(fs, first)|, 1, |fs| + |gs|
  {
    if fs != [] && fs[0].value.Undefined? {
      FieldsCancel(fs[1..], gs, first, x, y);
    } else if gs != [] && gs[0].value.Undefined? {
      FieldsCancel(fs, gs[1..], first, x, y);
    } else {
      var text := PrintFields(fs, first) + "}" + x;
      FieldsStart(fs, first, x, text);
      FieldsStart(gs, first, y, text);
      if fs != [] {
        FirstFieldCancel(fs, gs, first, x, y);
        FieldsCancel(fs[1..], gs[1..], false, x, y);
      }
    }
  }

  lemma FirstFieldCancel(fs: seq<Field>, gs: seq<Field>, first: bool, x: string, y: string)
    requires forall i :: 0 <= i < |fs| ==> WellFormed(fs[i].value)
    requires forall i :: 0 <= i < |gs| ==> WellFormed(gs[i].value)
    requires PrintFields(fs, first) + "}" + x == PrintFields(gs, first) + "}" + y
    requires fs != [] && gs != [] && !fs[0].value.Undefined? && !gs[0].value.Undefined?
    ensures fs[0].key == gs[0].key && MeaningOf(fs[0].value) == MeaningOf(gs[0].value)
    ensures PrintFields(fs[1..], false) + "}" + x == PrintFields(gs[1..], false) + "}" + y
    ensures |PrintFields(fs[1..], false)| < |PrintFields(fs, first)|
    decreases |PrintFields(fs, first)|, 0
  {
    var text := PrintFields(fs, first) + "}" + x;
    FieldsStart(fs, first, x, text);
    FieldsStart(gs, first, y, text);
    var p, q := PrintFields(fs[1..], false) + "}" + x, PrintFields(gs[1..], false) + "}" + y;
    var u, v := Print(fs[0].value) + p, Print(gs[0].value) + q;
    DropEqual(Separator(first), Quote(fs[0].key) + (":" + u), Quote(gs[0].key) + (":" + v));
    QuoteCancel(fs[0].key, gs[0].key, ":" + u, ":" + v);
    DropEqual(":", u, v);
    FieldsFollow(fs[1..], x);
    FieldsFollow(gs[1..], y);
    ValueCancel(fs[0].value, gs[0].value, p, q);
  }
}
