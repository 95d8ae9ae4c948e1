/** Canonical JSON text: object keys sorted at every depth, no whitespace.
    The text stands for the value it was made from: two values share their
    canonical text exactly when they have the same meaning. */
module Json {
  import opened Ordering
  import Text

  /** A JavaScript value made of data. A number is given by its decimal text;
      an object by its fields in enumeration order. */
  datatype Value =
    | Undefined
    | Null
    | Bool(flag: bool)
    | Num(decimal: string)
    | Str(text: string)
    | Arr(items: seq<Value>)
    | Obj(fields: seq<Field>)

  datatype Field = Field(key: string, value: Value)

  const NUMBER_CHARACTERS := "-0123456789.e+"

  /** Object keys are distinct, and numbers are finite. */
  predicate WellFormed(v: Value) {
    match v
    case Num(t) => t != "" && forall i :: 0 <= i < |t| ==> t[i] in NUMBER_CHARACTERS
    case Arr(items) => forall i :: 0 <= i < |items| ==> WellFormed(items[i])
    case Obj(fields) => DistinctKeys(fields) && forall i :: 0 <= i < |fields| ==> WellFormed(fields[i].value)
    case _ => true
  }

  predicate DistinctKeys(fields: seq<Field>) {
    forall i, j :: 0 <= i < j < |fields| ==> fields[i].key != fields[j].key
  }

  // ---- Sorting keys ------------------------------------------------------

  /** A key that names an array index; such keys are enumerated first. */
  predicate IsIndex(key: string) {
    && key != ""
    && Text.AllDigits(key)
    && (key[0] == '0' ==> key == "0")
    && (|key| < 10 || (|key| == 10 && Before(key, "4294967295")))
  }

  /** Enumeration order of an object filled in sorted key order: array indices
      by value, then the other keys as strings. */
  predicate KeyBefore(a: string, b: string) {
    if IsIndex(a) && IsIndex(b) then |a| < |b| || (|a| == |b| && Before(a, b))
    else if IsIndex(a) || IsIndex(b) then IsIndex(a)
    else Before(a, b)
  }

  predicate FieldBefore(f: Field, g: Field) { KeyBefore(f.key, g.key) }

  /** Assigning to this key of a fresh object replaces its prototype and
      leaves no field behind. */
  const PROTO := "__proto__"

  function SortKeys(v: Value): Value {
    match v
    case Arr(items) => Arr(SortItems(items))
    case Obj(fields) => Obj(Sort(SortFieldValues(fields), FieldBefore))
    case _ => v
  }

  function SortItems(items: seq<Value>): (r: seq<Value>)
    ensures |r| == |items|
    ensures forall i :: 0 <= i < |items| ==> r[i] == SortKeys(items[i])
  {
    if items == [] then [] else [SortKeys(items[0])] + SortItems(items[1..])
  }

  function SortFieldValues(fields: seq<Field>): seq<Field> {
    if fields == [] then []
    else if fields[0].key == PROTO then SortFieldValues(fields[1..])
    else [Field(fields[0].key, SortKeys(fields[0].value))] + SortFieldValues(fields[1..])
  }

  // ---- Printing ----------------------------------------------------------

  function HexDigit(n: nat): char
    requires n < 16
  {
    if n < 10 then ('0' as int + n) as char else ('a' as int + n - 10) as char
  }

  function EscapeCharacter(c: char): string {
    if c == '\"' then "\\\""
    else if c == '\\' then "\\\\"
    else if c == '\U{8}' then "\\b"
    else if c == '\U{9}' then "\\t"
    else if c == '\U{A}' then "\\n"
    else if c == '\U{C}' then "\\f"
    else if c == '\U{D}' then "\\r"
    else if c < ' ' then "\\u00" + [HexDigit(c as int / 16), HexDigit(c as int % 16)]
    else [c]
  }

  function Escape(s: string): string {
    if s == "" then "" else EscapeCharacter(s[0]) + Escape(s[1..])
  }

  function Quote(s: string): string { "\"" + Escape(s) + "\"" }

  /** JSON.stringify. */
  function Print(v: Value): string {
    match v
    case Undefined => ""
    case Null => "null"
    case Bool(b) => if b then "true" else "false"
    case Num(t) => t
    case Str(s) => Quote(s)
    case Arr(items) => "[" + PrintItems(items, true) + "]"
    case Obj(fields) => "{" + PrintFields(fields, true) + "}"
  }

  function PrintItems(items: seq<Value>, first: bool): string {
    if items == [] then ""
    else Separator(first)
         + (if items[0].Undefined? then "null" else Print(items[0]))
         + PrintItems(items[1..], false)
  }

  function PrintFields(fields: seq<Field>, first: bool): string {
    if fields == [] then ""
    else if fields[0].value.Undefined? then PrintFields(fields[1..], first)
    else Separator(first)
         + Quote(fields[0].key) + ":" + Print(fields[0].value)
         + PrintFields(fields[1..], false)
  }

  function Separator(first: bool): string { if first then "" else "," }

  function Canonical(v: Value): string { Print(SortKeys(v)) }

  // ---- Meaning -----------------------------------------------------------

  /** What a JSON text denotes: objects are finite maps. */
  datatype Meaning =
    | Absent
    | MNull
    | MBool(flag: bool)
    | MNum(decimal: string)
    | MStr(text: string)
    | MArr(items: seq<Meaning>)
    | MObj(members: map<string, Meaning>)

  /** Undefined fields are dropped; an undefined array item reads as null. */
  function MeaningOf(v: Value): Meaning {
    match v
    case Undefined => Absent
    case Null => MNull
    case Bool(b) => MBool(b)
    case Num(t) => MNum(t)
    case Str(s) => MStr(s)
    case Arr(items) => MArr(ItemMeanings(items))
    case Obj(fields) => MObj(Members(fields))
  }

  function ItemMeanings(items: seq<Value>): (r: seq<Meaning>)
    ensures |r| == |items|
    ensures forall i :: 0 <= i < |items| ==> r[i] == if items[i].Undefined? then MNull else MeaningOf(items[i])
  {
    if items == [] then []
    else [if items[0].Undefined? then MNull else MeaningOf(items[0])] + ItemMeanings(items[1..])
  }

  function Members(fields: seq<Field>): map<string, Meaning> {
    if fields == [] then map[]
    else
      var rest := Members(fields[1..]);
      if fields[0].value.Undefined? || fields[0].key == PROTO then rest
      else rest[fields[0].key := MeaningOf(fields[0].value)]
  }
}
