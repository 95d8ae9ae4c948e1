/** BIP-32 over secp256k1 and SLIP-0010 over Ed25519, written down apart from
    the code, and exactly when the keys the code derives are theirs. */
module StandardKeys {
  import opened Prelude
  import opened Bytes
  import opened PathParser
  import opened ChildKeys

  // ---- BIP-32 -------------------------------------------------------------

  /** An extended private key: a number and a chain code. */
  datatype Extended = Extended(scalar: nat, chainCode: seq<byte>)

  /** ser32 of section "Conventions": a child number, most significant byte
      first. Numbers from 2^31 on name hardened children. */
  function Ser32(number: nat): seq<byte>
    requires number < 0x1_0000_0000
  {
    [number / 0x100_0000, number / 0x1_0000 % 0x100, number / 0x100 % 0x100, number % 0x100]
  }

  /** ser256 and parse256 of the same section. */
  function Ser256(scalar: nat): seq<byte> { NatToBytes(scalar, 32) }

  function Parse256(bytes: seq<byte>): nat { BytesToNat(bytes) }

  /** CKDpriv of section "Private parent key to private child key". */
  function CkdPriv(c: Curve, parent: Extended, number: nat): Option<Extended>
    requires c.Valid() && number < 0x1_0000_0000
  {
    var start := if number >= 0x8000_0000 then [0] + Ser256(parent.scalar) else c.compressed(Ser256(parent.scalar));
    var hash := c.hmac(parent.chainCode, start + Ser32(number));
    var left := Parse256(hash[..32]);
    var scalar := (left + parent.scalar) % ORDER;
    if left >= ORDER || scalar == 0 then None else Some(Extended(scalar, hash[32..]))
  }

  predicate ChildNumbers(numbers: seq<nat>) { forall i :: 0 <= i < |numbers| ==> numbers[i] < 0x1_0000_0000 }

  function CkdAlong(c: Curve, start: Extended, numbers: seq<nat>): Option<Extended>
    requires c.Valid() && ChildNumbers(numbers)
  {
    if numbers == [] then Some(start)
    else
      match CkdAlong(c, start, numbers[..|numbers| - 1])
      case None => None
      case Some(parent) => CkdPriv(c, parent, numbers[|numbers| - 1])
  }

  /** Section "Master key generation"; the key is the text "Bitcoin seed". */
  function MasterKey(c: Curve, seed: seq<byte>): Option<Extended>
    requires c.Valid()
  {
    var hash := c.hmac([66, 105, 116, 99, 111, 105, 110, 32, 115, 101, 101, 100], seed);
    var left := Parse256(hash[..32]);
    if left == 0 || left >= ORDER then None else Some(Extended(left, hash[32..]))
  }

  function StandardKey(c: Curve, seed: seq<byte>, numbers: seq<nat>): Option<Extended>
    requires c.Valid() && ChildNumbers(numbers)
  {
    match MasterKey(c, seed)
    case None => None
    case Some(master) => CkdAlong(c, master, numbers)
  }

  /** The child number a path segment stands for. */
  function NumberOf(s: Segment): nat { if s.hardened then 0x8000_0000 + s.index else s.index }

  function NumbersOf(segments: seq<Segment>): (r: seq<nat>)
    requires InRange(segments)
    ensures ChildNumbers(r) && |r| == |segments|
  {
    seq(|segments|, i requires 0 <= i < |segments| => NumberOf(segments[i]))
  }

  // ---- One step -----------------------------------------------------------

  /** A node holds an extended key in bytes. */
  function Held(n: Node): Extended { Extended(BytesToNat(n.key), n.chainCode) }

  predicate Holds(n: Node, key: Extended) { ValidNode(n) && IsScalar(n.key) && Held(n) == key }

  lemma HeldBytes(n: Node)
    requires ValidNode(n)
    ensures Ser256(Held(n).scalar) == n.key
  {
    BytesRoundTrip(n.key);
  }

  lemma TopByte(number: nat)
    requires number < 0x1_0000_0000
    ensures number / 0x100_0000 % 256 == number / 0x100_0000
  {
  }

  lemma Ser32Bytes(number: nat)
    requires number < 0x1_0000_0000
    ensures NatToBytes(number, 4) == Ser32(number)
  {
    NumberBytes(number);
    TopByte(number);
  }

  lemma NumberIsStandard(s: Segment)
    requires s.index <= MAX_INDEX
    ensures ChildNumber(s) == NumberOf(s) < 0x1_0000_0000
  {
  }

  /** What the code hashes for a child is what the standard hashes. */
  lemma HashIsStandard(c: Curve, n: Node, s: Segment)
    requires c.Valid() && ValidNode(n) && s.index <= MAX_INDEX
    ensures Hash(c, n, s)
         == c.hmac(n.chainCode, (if NumberOf(s) >= 0x8000_0000 then [0] + Ser256(Held(n).scalar) else c.compressed(Ser256(Held(n).scalar)))
                                + Ser32(NumberOf(s)))
  {
    HeldBytes(n);
    NumberIsStandard(s);
    Ser32Bytes(NumberOf(s));
  }

  /** The standard has no child here: the left half is not below the order, or
      the sum reduces to zero. */
  predicate Discards(c: Curve, n: Node, s: Segment)
    requires c.Valid()
  {
    Tweak(c, n, s) >= ORDER || (BytesToNat(n.key) + Tweak(c, n, s)) % ORDER == 0
  }

  /** So the standard's child is made of the code's left half and chain code. */
  lemma CkdOfHash(c: Curve, n: Node, s: Segment)
    requires c.Valid() && ValidNode(n) && s.index <= MAX_INDEX
    ensures CkdPriv(c, Held(n), NumberOf(s))
         == if Discards(c, n, s) then None
            else Some(Extended((BytesToNat(n.key) + Tweak(c, n, s)) % ORDER, Hash(c, n, s)[32..]))
  {
    HashIsStandard(c, n, s);
  }

  /** From a scalar the code has the standard's child exactly when there is one;
      otherwise it goes on with a child that the standard leaves out. That child
      is a scalar again unless the sum reduces to zero. */
  lemma ChildIsStandardIff(c: Curve, n: Node, s: Segment)
    requires c.Valid() && ValidNode(n) && IsScalar(n.key) && s.index <= MAX_INDEX
    ensures Child(c, n, s).Ok?
    ensures var child, standard := Child(c, n, s).value, CkdPriv(c, Held(n), NumberOf(s));
      && (standard.None? <==> Discards(c, n, s))
      && (standard.Some? ==> Holds(child, standard.value))
      && (IsScalar(child.key) <==> (BytesToNat(n.key) + Tweak(c, n, s)) % ORDER != 0)
  {
    CkdOfHash(c, n, s);
    ChildScalar(c, n, s);
  }

  // ---- A path of steps ----------------------------------------------------

  lemma NumbersSnoc(init: seq<Segment>, last: Segment)
    requires InRange(init) && last.index <= MAX_INDEX
    ensures InRange(init + [last]) && NumbersOf(init + [last]) == NumbersOf(init) + [NumberOf(last)]
  {
    InRangeSnoc(init, last);
  }

  lemma CkdSnoc(c: Curve, start: Extended, numbers: seq<nat>, last: nat)
    requires c.Valid() && ChildNumbers(numbers) && last < 0x1_0000_0000
    ensures ChildNumbers(numbers + [last])
    ensures CkdAlong(c, start, numbers + [last])
         == match CkdAlong(c, start, numbers) case None => None case Some(parent) => CkdPriv(c, parent, last)
  {
    assert (numbers + [last])[..|numbers|] == numbers;
  }

  predicate DiscardsAt(c: Curve, n: Node, segments: seq<Segment>, k: nat)
    requires c.Valid() && k < |segments|
  {
    Descend(c, n, segments[..k]).Ok? && Discards(c, Descend(c, n, segments[..k]).value, segments[k])
  }

  ghost predicate DiscardsSome(c: Curve, n: Node, segments: seq<Segment>)
    requires c.Valid()
  {
    exists k :: 0 <= k < |segments| && DiscardsAt(c, n, segments, k)
  }

  lemma DiscardsPrefix(c: Curve, n: Node, init: seq<Segment>, last: Segment, k: nat)
    requires c.Valid() && k < |init|
    ensures DiscardsAt(c, n, init + [last], k) == DiscardsAt(c, n, init, k)
  {
    assert (init + [last])[..k] == init[..k];
  }

  lemma DiscardsSnoc(c: Curve, n: Node, init: seq<Segment>, last: Segment)
    requires c.Valid()
    ensures DiscardsSome(c, n, init + [last]) <==>
      DiscardsSome(c, n, init) || (Descend(c, n, init).Ok? && Discards(c, Descend(c, n, init).value, last))
  {
    var segments := init + [last];
    assert segments[..|init|] == init;
    forall k | 0 <= k < |init|
      ensures DiscardsAt(c, n, segments, k) == DiscardsAt(c, n, init, k)
    {
      DiscardsPrefix(c, n, init, last, k);
    }
    if DiscardsSome(c, n, init) {
      var k :| 0 <= k < |init| && DiscardsAt(c, n, init, k);
      assert DiscardsAt(c, n, segments, k);
    }
    assert DiscardsAt(c, n, segments, |init|) <==> Descend(c, n, init).Ok? && Discards(c, Descend(c, n, init).value, last);
  }

  /** What the code derives along the path is what the standard derives,
      exactly when no step on the way is one the standard discards; otherwise
      the standard has no such key. */
  ghost predicate MatchesStandard(c: Curve, n: Node, segments: seq<Segment>)
    requires c.Valid() && InRange(segments)
  {
    match CkdAlong(c, Held(n), NumbersOf(segments))
    case None => DiscardsSome(c, n, segments)
    case Some(key) => !DiscardsSome(c, n, segments) && Descend(c, n, segments).Ok? && Holds(Descend(c, n, segments).value, key)
  }

  lemma StandardEnds(c: Curve, n: Node, init: seq<Segment>, last: Segment)
    requires c.Valid() && InRange(init) && last.index <= MAX_INDEX && InRange(init + [last])
    requires MatchesStandard(c, n, init) && CkdAlong(c, Held(n), NumbersOf(init)).None?
    ensures MatchesStandard(c, n, init + [last])
  {
    DiscardsSnoc(c, n, init, last);
    NumbersSnoc(init, last);
    CkdSnoc(c, Held(n), NumbersOf(init), NumberOf(last));
  }

  lemma StandardGoesOn(c: Curve, n: Node, init: seq<Segment>, last: Segment, m: Node)
    requires c.Valid() && InRange(init) && last.index <= MAX_INDEX && InRange(init + [last])
    requires MatchesStandard(c, n, init) && Descend(c, n, init) == Ok(m) && CkdAlong(c, Held(n), NumbersOf(init)) == Some(Held(m))
    ensures MatchesStandard(c, n, init + [last])
  {
    DiscardsSnoc(c, n, init, last);
    NumbersSnoc(init, last);
    CkdSnoc(c, Held(n), NumbersOf(init), NumberOf(last));
    ChildIsStandardIff(c, m, last);
    LastStep(c, n, init, last);
  }

  lemma {:induction false} DescendIsStandardIff(c: Curve, n: Node, segments: seq<Segment>)
    requires c.Valid() && ValidNode(n) && IsScalar(n.key) && InRange(segments)
    ensures MatchesStandard(c, n, segments)
    decreases |segments|
  {
    if segments == [] {
      assert NumbersOf(segments) == [];
    } else {
      var init, last := segments[..|segments| - 1], segments[|segments| - 1];
      assert segments == init + [last];
      DescendIsStandardIff(c, n, init);
      if CkdAlong(c, Held(n), NumbersOf(init)).None? {
        StandardEnds(c, n, init, last);
      } else {
        StandardGoesOn(c, n, init, last, Descend(c, n, init).value);
      }
    }
  }

  // ---- The whole derivation -----------------------------------------------

  /** The code's master key is the standard's, which has none outside the
      scalars. */
  lemma MasterIsStandard(c: Curve, seed: seq<byte>)
    requires c.Valid()
    ensures var master := Master(c, Utf8(BITCOIN_SEED), seed);
      && ValidNode(master)
      && MasterKey(c, seed) == (if IsScalar(master.key) then Some(Held(master)) else None)
  {
    assert Utf8(BITCOIN_SEED) == [66, 105, 116, 99, 111, 105, 110, 32, 115, 101, 101, 100];
  }

  /** The child numbers a path stands for; parsing keeps indices in range. */
  function PathNumbers(path: string): (r: seq<nat>)
    requires Parse(path).Ok?
    ensures ChildNumbers(r)
  {
    ParseNormalizes(path);
    NumbersOf(Parse(path).value)
  }

  /** The whole derivation: the standard has a key exactly when the master key
      is a scalar and no step on the way is discarded, and then the code hands
      out that key, its chain code and its public key. */
  lemma DeriveIsStandardIff(c: Curve, seed: seq<byte>, path: string)
    requires c.Valid() && Parse(path).Ok?
    ensures var master, standard := Master(c, Utf8(BITCOIN_SEED), seed), StandardKey(c, seed, PathNumbers(path));
      && (standard.Some? <==> IsScalar(master.key) && !DiscardsSome(c, master, Parse(path).value))
      && (standard.Some? ==> HandsOut(c, seed, path, standard.value))
  {
    var master, segments := Master(c, Utf8(BITCOIN_SEED), seed), Parse(path).value;
    ParseNormalizes(path);
    MasterIsStandard(c, seed);
    if IsScalar(master.key) {
      DescendIsStandardIff(c, master, segments);
      if !DiscardsSome(c, master, segments) {
        HeldBytes(Descend(c, master, segments).value);
      }
    }
  }

  /** The code derives this key from the path, with its public key. */
  predicate HandsOut(c: Curve, seed: seq<byte>, path: string, key: Extended)
    requires c.Valid()
  {
    var derived := Derive(c, seed, path);
    derived.Ok? && Holds(derived.value.node, key) && derived.value.publicKey == c.uncompressed(Ser256(key.scalar))
  }

  /** The EVM key of an index is the standard's key at 44', 60', 0', 0, index. */
  lemma EvmKeyIsStandard(c: Curve, seed: seq<byte>, index: nat)
    requires c.Valid() && index < 0x8000_0000
    ensures var standard := StandardKey(c, seed, [0x8000_002C, 0x8000_003C, 0x8000_0000, 0, index]);
      standard.Some? ==> HandsOut(c, seed, EvmPath(index), standard.value)
  {
    EvmPathParses(index);
    assert NumbersOf(EvmSegments(index)) == [0x8000_002C, 0x8000_003C, 0x8000_0000, 0, index];
    DeriveIsStandardIff(c, seed, EvmPath(index));
  }

  // ---- SLIP-0010 ----------------------------------------------------------

  /** Child key derivation for Ed25519, which has hardened children only. */
  function EdCkd(c: Curve, parent: Node, number: nat): Option<Node>
    requires c.Valid() && number < 0x1_0000_0000
  {
    if number < 0x8000_0000 then None
    else
      var hash := c.hmac(parent.chainCode, [0] + parent.key + Ser32(number));
      Some(Node(hash[..32], hash[32..]))
  }

  function EdAlong(c: Curve, start: Node, numbers: seq<nat>): Option<Node>
    requires c.Valid() && ChildNumbers(numbers)
  {
    if numbers == [] then Some(start)
    else
      match EdAlong(c, start, numbers[..|numbers| - 1])
      case None => None
      case Some(parent) => EdCkd(c, parent, numbers[|numbers| - 1])
  }

  /** The master key; the hash is keyed with the text "ed25519 seed". */
  function EdMaster(c: Curve, seed: seq<byte>): Node
    requires c.Valid()
  {
    var hash := c.hmac([101, 100, 50, 53, 53, 49, 57, 32, 115, 101, 101, 100], seed);
    Node(hash[..32], hash[32..])
  }

  predicate AllHardened(segments: seq<Segment>) { forall i :: 0 <= i < |segments| ==> segments[i].hardened }

  lemma EdSnoc(c: Curve, start: Node, numbers: seq<nat>, last: nat)
    requires c.Valid() && ChildNumbers(numbers) && last < 0x1_0000_0000
    ensures ChildNumbers(numbers + [last])
    ensures EdAlong(c, start, numbers + [last])
         == match EdAlong(c, start, numbers) case None => None case Some(parent) => EdCkd(c, parent, last)
  {
    assert (numbers + [last])[..|numbers|] == numbers;
  }

  lemma EdChildIsStandard(c: Curve, n: Node, s: Segment)
    requires c.Valid() && ValidNode(n) && s.index <= MAX_INDEX
    ensures EdCkd(c, n, NumberOf(s)) == if s.hardened then Some(EdChild(c, n, s)) else None
  {
    if s.hardened {
      HashIsStandard(c, n, s);
      HeldBytes(n);
      assert Segment(s.index, true) == s;
    }
  }

  /** Along a path the code has the standard's node exactly when every segment
      is hardened; otherwise the standard has none, and the code goes on as if
      the marks were there. */
  lemma {:induction false} EdDescendIsStandardIff(c: Curve, n: Node, segments: seq<Segment>)
    requires c.Valid() && ValidNode(n) && InRange(segments)
    ensures EdAlong(c, n, NumbersOf(segments)) == if AllHardened(segments) then Some(EdDescend(c, n, segments)) else None
    decreases |segments|
  {
    if segments == [] {
      assert NumbersOf(segments) == [];
    } else {
      var init, last := segments[..|segments| - 1], segments[|segments| - 1];
      assert segments == init + [last];
      EdDescendIsStandardIff(c, n, init);
      NumbersSnoc(init, last);
      EdSnoc(c, n, NumbersOf(init), NumberOf(last));
      EdChildIsStandard(c, EdDescend(c, n, init), last);
      assert AllHardened(segments) <==> AllHardened(init) && last.hardened;
    }
  }

  lemma EdMasterIsStandard(c: Curve, seed: seq<byte>)
    requires c.Valid()
    ensures Master(c, Utf8(ED25519_SEED), seed) == EdMaster(c, seed) && ValidNode(EdMaster(c, seed))
  {
    assert Utf8(ED25519_SEED) == [101, 100, 50, 53, 53, 49, 57, 32, 115, 101, 101, 100];
  }

  /** The signing key of an index is the standard's at 44', 501', index', 0'. */
  lemma Ed25519KeyIsStandard(c: Curve, seed: seq<byte>, index: nat)
    requires c.Valid() && index < 0x8000_0000
    ensures var standard := EdAlong(c, EdMaster(c, seed), [0x8000_002C, 0x8000_01F5, 0x8000_0000 + index, 0x8000_0000]);
      standard.Some? && EdDerive(c, seed, Ed25519Path(index)) == Ok(standard.value)
  {
    Ed25519PathParses(index);
    assert NumbersOf(Ed25519Segments(index)) == [0x8000_002C, 0x8000_01F5, 0x8000_0000 + index, 0x8000_0000];
    EdMasterIsStandard(c, seed);
    EdDescendIsStandardIff(c, EdMaster(c, seed), Ed25519Segments(index));
  }
}
