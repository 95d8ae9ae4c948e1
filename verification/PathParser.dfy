/** Derivation paths such as m/44'/60'/0'/0/7. */
module PathParser {
  import opened Prelude
  import opened Text

  datatype Segment = Segment(index: nat, hardened: bool)

  datatype PathError = NoMaster | EmptySegment | BadSegment(part: string)

  type Parsed = Result<seq<Segment>, PathError>

  const MAX_INDEX: nat := 0x7fff_ffff

  // ---- Parsing ------------------------------------------------------------

  function ParsePart(part: string): Result<Segment, PathError> {
    if part == "" then Err(EmptySegment)
    else
      var hardened := part[|part| - 1] == '\'';
      var numeral := if hardened then part[..|part| - 1] else part;
      if numeral == "" || !AllDigits(numeral) then Err(BadSegment(part))
      else if ParseNat(numeral) > MAX_INDEX then Err(BadSegment(part))
      else Ok(Segment(ParseNat(numeral), hardened))
  }

  /** The first bad part decides the error. */
  function ParseParts(parts: seq<string>): Parsed {
    if parts == [] then Ok([])
    else Extend(ParseParts(parts[..|parts| - 1]), ParsePart(parts[|parts| - 1]))
  }

  function Extend(before: Parsed, next: Result<Segment, PathError>): Parsed {
    if before.Err? then before
    else if next.Err? then Err(next.error)
    else Ok(before.value + [next.value])
  }

  function Parse(path: string): Parsed {
    var parts := Split(path, '/');
    if parts[0] != "m" then Err(NoMaster) else ParseParts(parts[1..])
  }

  method ParsePath(path: string) returns (r: Parsed)
    ensures r == Parse(path)
  {
    if path == "m" {
      SplitWhole("m", '/');
      return Ok([]);
    }
    var parts := Split(path, '/');
    if parts[0] != "m" {
      return Err(NoMaster);
    }
    var segments: seq<Segment> := [];
    for i := 1 to |parts|
      invariant ParseParts(parts[1..i]) == Ok(segments)
    {
      ParsePartsStep(parts, i);
      var segment := ParsePart(parts[i]);
      if segment.Err? {
        ParsePartsStops(parts, i);
        return Err(segment.error);
      }
      segments := segments + [segment.value];
    }
    assert parts[1..|parts|] == parts[1..];
    r := Ok(segments);
  }

  lemma ParsePartsStep(parts: seq<string>, i: nat)
    requires 1 <= i < |parts|
    ensures parts[1..i + 1] == parts[1..i] + [parts[i]]
    ensures parts[1..i + 1][..i - 1] == parts[1..i]
  {
  }

  /** An error in a prefix is the error of the whole. */
  lemma {:induction false} ParsePartsErr(parts: seq<string>, k: nat)
    requires k <= |parts| && ParseParts(parts[..k]).Err?
    ensures ParseParts(parts) == ParseParts(parts[..k])
  {
    if k == |parts| {
      assert parts[..k] == parts;
    } else {
      assert parts[..|parts| - 1][..k] == parts[..k];
      ParsePartsErr(parts[..|parts| - 1], k);
    }
  }

  lemma ParsePartsStops(parts: seq<string>, i: nat)
    requires 1 <= i < |parts|
    requires ParseParts(parts[1..i]).Ok? && ParsePart(parts[i]).Err?
    ensures ParseParts(parts[1..]) == Err(ParsePart(parts[i]).error)
  {
    ParsePartsStep(parts, i);
    assert parts[1..][..i] == parts[1..i + 1];
    ParsePartsErr(parts[1..], i);
  }

  // ---- What is accepted ---------------------------------------------------

  /** The text of a segment behind `zeros` leading zeros. */
  function PaddedSegment(zeros: nat, s: Segment): string {
    Zeros(zeros) + PrintNat(s.index) + (if s.hardened then "'" else "")
  }

  ghost predicate Spells(part: string, s: Segment) {
    s.index <= MAX_INDEX && exists zeros: nat :: part == PaddedSegment(zeros, s)
  }

  lemma PaddedPart(zeros: nat, s: Segment)
    ensures var part := PaddedSegment(zeros, s);
      ParsePart(part) == (if s.index <= MAX_INDEX then Ok(s) else Err(BadSegment(part)))
  {
    var part, numeral := PaddedSegment(zeros, s), Zeros(zeros) + PrintNat(s.index);
    ParsePadded(zeros, s.index);
    if s.hardened {
      assert part[..|part| - 1] == numeral;
    } else {
      assert part == numeral;
      assert IsDigit(numeral[|numeral| - 1]);
    }
  }

  lemma AcceptedIsSpelled(part: string, s: Segment)
    requires ParsePart(part) == Ok(s)
    ensures Spells(part, s)
  {
    var numeral := if s.hardened then part[..|part| - 1] else part;
    assert numeral != "" && AllDigits(numeral) && ParseNat(numeral) == s.index;
    var zeros := PaddingOf(numeral);
    assert part == numeral + (if s.hardened then "'" else "");
    assert part == PaddedSegment(zeros, s);
  }

  /** A part is accepted exactly when it is a segment's text with any number of
      leading zeros and an index below 2^31. */
  lemma ParsePartIff(part: string, s: Segment)
    ensures ParsePart(part) == Ok(s) <==> Spells(part, s)
  {
    if ParsePart(part) == Ok(s) {
      AcceptedIsSpelled(part, s);
    }
    if Spells(part, s) {
      var zeros: nat :| part == PaddedSegment(zeros, s);
      PaddedPart(zeros, s);
    }
  }

  lemma {:induction false} ParsePartsIff(parts: seq<string>, segments: seq<Segment>)
    ensures ParseParts(parts) == Ok(segments) <==>
      |parts| == |segments| && SpellAll(parts, segments)
  {
    if parts != [] && segments != [] {
      var n, m := |parts| - 1, |segments| - 1;
      ParsePartsIff(parts[..n], segments[..m]);
      ParsePartIff(parts[n], segments[m]);
      ExtendIff(ParseParts(parts[..n]), ParsePart(parts[n]), segments);
      if n == m {
        SpellAllLast(parts, segments);
      }
    }
  }

  ghost predicate SpellAll(parts: seq<string>, segments: seq<Segment>)
    requires |parts| == |segments|
  {
    forall i :: 0 <= i < |parts| ==> Spells(parts[i], segments[i])
  }

  lemma SpellAllLast(parts: seq<string>, segments: seq<Segment>)
    requires |parts| == |segments| > 0
    ensures var n := |parts| - 1;
      SpellAll(parts, segments) <==> SpellAll(parts[..n], segments[..n]) && Spells(parts[n], segments[n])
  {
    var n := |parts| - 1;
    assert forall i :: 0 <= i < n ==> parts[..n][i] == parts[i] && segments[..n][i] == segments[i];
  }

  lemma ExtendIff(before: Parsed, next: Result<Segment, PathError>, segments: seq<Segment>)
    requires segments != []
    ensures var m := |segments| - 1;
      Extend(before, next) == Ok(segments) <==> before == Ok(segments[..m]) && next == Ok(segments[m])
  {
    var m := |segments| - 1;
    assert segments == segments[..m] + [segments[m]];
    if before.Ok? && next.Ok? && before.value + [next.value] == segments {
      assert segments[..m] == before.value && segments[m] == next.value;
    }
  }

  /** The accepted language: "m", then one slash and one spelled segment after
      the other. */
  lemma ParseIff(path: string, segments: seq<Segment>)
    ensures var parts := Split(path, '/');
      Parse(path) == Ok(segments) <==>
        && parts[0] == "m" && |parts| == |segments| + 1
        && forall i :: 0 <= i < |segments| ==> Spells(parts[i + 1], segments[i])
  {
    var parts := Split(path, '/');
    ParsePartsIff(parts[1..], segments);
    if |parts| == |segments| + 1 {
      assert forall i :: 0 <= i < |segments| ==> parts[1..][i] == parts[i + 1];
    }
  }

  ghost predicate SpellsSome(part: string) { exists s :: Spells(part, s) }

  lemma PartFault(part: string)
    ensures ParsePart(part).Ok? <==> SpellsSome(part)
    ensures ParsePart(part).Err? ==> ParsePart(part).error == if part == "" then EmptySegment else BadSegment(part)
  {
    if ParsePart(part).Ok? {
      ParsePartIff(part, ParsePart(part).value);
    }
    if SpellsSome(part) {
      var s :| Spells(part, s);
      ParsePartIff(part, s);
    }
  }

  /** Part `k` is the first that spells no segment. */
  ghost predicate FirstBad(parts: seq<string>, k: nat) {
    k < |parts| && !SpellsSome(parts[k]) && forall i :: 0 <= i < k ==> SpellsSome(parts[i])
  }

  lemma {:induction false} FirstBadPart(parts: seq<string>) returns (k: nat)
    ensures ParseParts(parts).Ok? ==> forall i :: 0 <= i < |parts| ==> SpellsSome(parts[i])
    ensures ParseParts(parts).Err? ==>
      FirstBad(parts, k) && ParseParts(parts).error == if parts[k] == "" then EmptySegment else BadSegment(parts[k])
  {
    k := 0;
    if parts != [] {
      var front, last := parts[..|parts| - 1], parts[|parts| - 1];
      assert parts == front + [last];
      k := FirstBadPart(front);
      PartFault(last);
      if ParseParts(front).Ok? {
        k := |front|;
      }
      assert forall i :: 0 <= i < |front| ==> parts[i] == front[i];
    }
  }

  /** Why a path is rejected: it does not start with "m", or some part spells no
      segment, of which the first decides, being empty or not. */
  lemma RejectedBecause(path: string) returns (k: nat)
    requires Parse(path).Err?
    ensures var parts, fault := Split(path, '/'), Parse(path).error;
      && (parts[0] != "m" ==> fault == NoMaster)
      && (parts[0] == "m" ==> FirstBad(parts[1..], k) && fault == if parts[k + 1] == "" then EmptySegment else BadSegment(parts[k + 1]))
  {
    k := FirstBadPart(Split(path, '/')[1..]);
  }

  // ---- Printing -----------------------------------------------------------

  function PrintSegment(s: Segment): string {
    PrintNat(s.index) + (if s.hardened then "'" else "")
  }

  function PrintSegments(segments: seq<Segment>): (r: seq<string>)
    ensures |r| == |segments|
    ensures forall i :: 0 <= i < |segments| ==> r[i] == PrintSegment(segments[i])
  {
    seq(|segments|, i requires 0 <= i < |segments| => PrintSegment(segments[i]))
  }

  function PrintPath(segments: seq<Segment>): string {
    Join(["m"] + PrintSegments(segments), '/')
  }

  predicate InRange(segments: seq<Segment>) {
    forall i :: 0 <= i < |segments| ==> segments[i].index <= MAX_INDEX
  }

  lemma PaddedWithNone(s: Segment)
    ensures PaddedSegment(0, s) == PrintSegment(s)
  {
    assert Zeros(0) + PrintNat(s.index) == PrintNat(s.index);
  }

  lemma NoSlash(s: Segment)
    ensures '/' !in PrintSegment(s)
  {
    assert !IsDigit('/');
  }

  lemma PrintedPart(s: Segment)
    ensures s.index <= MAX_INDEX ==> ParsePart(PrintSegment(s)) == Ok(s)
    ensures s.index > MAX_INDEX ==> ParsePart(PrintSegment(s)) == Err(BadSegment(PrintSegment(s)))
    ensures '/' !in PrintSegment(s)
  {
    PaddedWithNone(s);
    PaddedPart(0, s);
    NoSlash(s);
  }

  lemma {:induction false} PrintedParts(segments: seq<Segment>)
    ensures InRange(segments) ==> ParseParts(PrintSegments(segments)) == Ok(segments)
    ensures !InRange(segments) ==> ParseParts(PrintSegments(segments)).Err?
  {
    if segments != [] {
      var init, last := segments[..|segments| - 1], segments[|segments| - 1];
      PrintedParts(init);
      PrintedPart(last);
      assert segments == init + [last];
      PrintedSnoc(init, last);
      InRangeSnoc(init, last);
    }
  }

  lemma PrintedSnoc(init: seq<Segment>, last: Segment)
    ensures ParseParts(PrintSegments(init + [last])) == Extend(ParseParts(PrintSegments(init)), ParsePart(PrintSegment(last)))
  {
    assert PrintSegments(init + [last])[..|init|] == PrintSegments(init);
  }

  lemma InRangeSnoc(init: seq<Segment>, last: Segment)
    ensures InRange(init + [last]) <==> InRange(init) && last.index <= MAX_INDEX
  {
    assert forall i :: 0 <= i < |init| ==> (init + [last])[i] == init[i];
    assert (init + [last])[|init|] == last;
  }

  /** The printed form of a segment list parses to that list exactly when every
      index is below 2^31; any larger index is rejected. */
  lemma ParsePrinted(segments: seq<Segment>)
    ensures Parse(PrintPath(segments)) == Ok(segments) <==> InRange(segments)
    ensures !InRange(segments) ==> Parse(PrintPath(segments)).Err?
  {
    var parts := ["m"] + PrintSegments(segments);
    forall i | 0 <= i < |parts|
      ensures '/' !in parts[i]
    {
      if i > 0 {
        PrintedPart(segments[i - 1]);
      }
    }
    SplitJoin(parts, '/');
    assert parts[1..] == PrintSegments(segments);
    PrintedParts(segments);
  }

  /** Parsing keeps only indices below 2^31, so printing what was parsed and
      parsing again changes nothing. */
  lemma ParseNormalizes(path: string)
    requires Parse(path).Ok?
    ensures InRange(Parse(path).value)
    ensures Parse(PrintPath(Parse(path).value)) == Parse(path)
  {
    ParseIff(path, Parse(path).value);
    ParsePrinted(Parse(path).value);
  }

  // ---- The two paths in use -----------------------------------------------

  const EVM_PATH_PREFIX := "m/44'/60'/0'/0"
  const ED25519_PATH_PREFIX := "m/44'/501'"

  /** Decimal text of an integer. */
  function PrintInt(n: int): string {
    if n < 0 then "-" + PrintNat(-n) else PrintNat(n)
  }

  function EvmPath(index: int): string { EVM_PATH_PREFIX + "/" + PrintInt(index) }

  function Ed25519Path(index: int): string { ED25519_PATH_PREFIX + "/" + PrintInt(index) + "'/0'" }

  function EvmSegments(index: nat): seq<Segment> {
    [Segment(44, true), Segment(60, true), Segment(0, true), Segment(0, false), Segment(index, false)]
  }

  function Ed25519Segments(index: nat): seq<Segment> {
    [Segment(44, true), Segment(501, true), Segment(index, true), Segment(0, true)]
  }

  lemma EvmPathJoins(index: int)
    ensures EvmPath(index) == Join(["m", "44'", "60'", "0'", "0", PrintInt(index)], '/')
  {
    assert Join(["44'", "60'", "0'", "0"], '/') == "44'/60'/0'/0";
    var prefix := ["m", "44'", "60'", "0'", "0"];
    assert Join(prefix, '/') == EVM_PATH_PREFIX;
    JoinSnoc(prefix, '/', PrintInt(index));
    assert prefix + [PrintInt(index)] == ["m", "44'", "60'", "0'", "0", PrintInt(index)];
  }

  lemma Ed25519PathJoins(index: int)
    ensures Ed25519Path(index) == Join(["m", "44'", "501'", PrintInt(index) + "'", "0'"], '/')
  {
    var prefix, part := ["m", "44'", "501'"], PrintInt(index) + "'";
    assert Join(prefix, '/') == ED25519_PATH_PREFIX;
    JoinSnoc(prefix, '/', part);
    JoinSnoc(prefix + [part], '/', "0'");
    assert prefix + [part] + ["0'"] == ["m", "44'", "501'", part, "0'"];
    MarkBeforeSlash(ED25519_PATH_PREFIX + "/", PrintInt(index));
  }

  lemma MarkBeforeSlash(a: string, b: string)
    ensures a + b + "'/0'" == a + (b + "'") + "/" + "0'"
  {
  }

  /** One bad part is enough. */
  lemma BadPartRejects(parts: seq<string>, k: nat)
    requires 1 <= k < |parts| && ParsePart(parts[k]).Err?
    requires forall i :: 0 <= i < |parts| ==> '/' !in parts[i]
    ensures Parse(Join(parts, '/')).Err?
  {
    SplitJoin(parts, '/');
    assert parts[1..][..k][..k - 1] == parts[1..][..k - 1] && parts[1..][..k][k - 1] == parts[k];
    ParsePartsErr(parts[1..], k);
  }

  lemma MinusRejected(n: nat, mark: string)
    requires mark in {"", "'"}
    ensures ParsePart("-" + PrintNat(n) + mark).Err?
    ensures '/' !in "-" + PrintNat(n) + mark
  {
    var part := "-" + PrintNat(n) + mark;
    assert part[0] == '-';
  }

  lemma EvmPathPrints(index: nat)
    ensures EvmPath(index) == PrintPath(EvmSegments(index))
  {
    var s := EvmSegments(index);
    EvmPathJoins(index);
    SmallNumerals();
    assert PrintSegment(s[4]) == PrintInt(index);
    assert PrintSegments(s) == ["44'", "60'", "0'", "0", PrintInt(index)];
  }

  lemma EvmPathNegative(index: int)
    requires index < 0
    ensures Parse(EvmPath(index)).Err?
  {
    EvmPathJoins(index);
    MinusRejected(-index, "");
    assert "-" + PrintNat(-index) + "" == PrintInt(index);
    BadPartRejects(["m", "44'", "60'", "0'", "0", PrintInt(index)], 5);
  }

  /** The paths built for an index parse to the intended segments exactly for
      the indices from 0 to 2^31 - 1; every other index is rejected. */
  lemma EvmPathParses(index: int)
    ensures 0 <= index < 0x8000_0000 ==> Parse(EvmPath(index)) == Ok(EvmSegments(index))
    ensures !(0 <= index < 0x8000_0000) ==> Parse(EvmPath(index)).Err?
  {
    if index >= 0 {
      EvmPathPrints(index);
      ParsePrinted(EvmSegments(index));
      assert EvmSegments(index)[4].index == index;
    } else {
      EvmPathNegative(index);
    }
  }

  lemma Ed25519PathPrints(index: nat)
    ensures Ed25519Path(index) == PrintPath(Ed25519Segments(index))
  {
    Ed25519PathJoins(index);
    SmallNumerals();
    assert PrintSegments(Ed25519Segments(index)) == ["44'", "501'", PrintInt(index) + "'", "0'"];
  }

  lemma Ed25519PathParses(index: int)
    ensures 0 <= index < 0x8000_0000 ==> Parse(Ed25519Path(index)) == Ok(Ed25519Segments(index))
    ensures !(0 <= index < 0x8000_0000) ==> Parse(Ed25519Path(index)).Err?
  {
    if index >= 0 {
      Ed25519PathPrints(index);
      ParsePrinted(Ed25519Segments(index));
      assert Ed25519Segments(index)[2].index == index;
    } else {
      Ed25519PathJoins(index);
      MinusRejected(-index, "'");
      BadPartRejects(["m", "44'", "501'", PrintInt(index) + "'", "0'"], 3);
    }
  }

  lemma SmallNumerals()
    ensures PrintSegment(Segment(0, true)) == "0'" && PrintSegment(Segment(0, false)) == "0"
    ensures PrintSegment(Segment(44, true)) == "44'" && PrintSegment(Segment(60, true)) == "60'"
    ensures PrintSegment(Segment(501, true)) == "501'"
  {
    assert PrintNat(44) == PrintNat(4) + "4" && PrintNat(60) == PrintNat(6) + "0";
    assert PrintNat(501) == PrintNat(50) + "1" && PrintNat(50) == PrintNat(5) + "0";
  }
}
