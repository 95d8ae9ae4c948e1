/** Hierarchical key derivation: BIP-32 over secp256k1 and SLIP-0010 over
    Ed25519. The keyed hash and the curve are parameters; what is modelled is
    the layout of the hashed data and the arithmetic of the keys. */
module ChildKeys {
  import opened Prelude
  import opened Bytes
  import opened PathParser

  /** Order of the secp256k1 group. */
  const ORDER: nat := 0xFFFF_FFFF_FFFF_FFFF_FFFF_FFFF_FFFF_FFFE_BAAE_DCE6_AF48_A03B_BFD2_5E8C_D036_4141

  const HARDENED_OFFSET: nat := 0x8000_0000

  /** `hmac(key, data)` has 64 bytes. A public key has 33 bytes, or 65 when not
      compressed; there is none for a scalar outside 1..ORDER-1. */
  datatype Curve = Curve(
    hmac: (seq<byte>, seq<byte>) -> seq<byte>,
    compressed: seq<byte> -> seq<byte>,
    uncompressed: seq<byte> -> seq<byte>)
  {
    ghost predicate Valid() {
      && (forall key, data :: |hmac(key, data)| == 64)
      && (forall key :: |compressed(key)| == 33)
      && (forall key :: |uncompressed(key)| == 65)
    }
  }

  predicate IsScalar(key: seq<byte>) { 0 < BytesToNat(key) < ORDER }

  datatype Node = Node(key: seq<byte>, chainCode: seq<byte>)

  datatype KeyPair = KeyPair(node: Node, publicKey: seq<byte>)

  datatype DeriveError = BadPath(error: PathError) | BadPrivateKey

  predicate ValidNode(n: Node) { |n.key| == 32 && |n.chainCode| == 32 }

  // ---- One step -----------------------------------------------------------

  /** The 32-bit child number. */
  function ChildNumber(s: Segment): nat {
    if s.hardened then (s.index + HARDENED_OFFSET) % 0x1_0000_0000 else s.index
  }

  /** What is hashed: a 33-byte key and the child number, big-endian. */
  function ChildData(head: seq<byte>, number: nat): (r: seq<byte>)
    ensures |r| == |head| + 4
  {
    head + NatToBytes(number, 4)
  }

  function Head(c: Curve, n: Node, s: Segment): seq<byte> {
    if s.hardened then [0] + n.key else c.compressed(n.key)
  }

  function Hash(c: Curve, n: Node, s: Segment): seq<byte> {
    c.hmac(n.chainCode, ChildData(Head(c, n, s), ChildNumber(s)))
  }

  /** The left half of the hash as a number. */
  function Tweak(c: Curve, n: Node, s: Segment): nat
    requires c.Valid()
  {
    BytesToNat(Hash(c, n, s)[..32])
  }

  function Child(c: Curve, n: Node, s: Segment): Result<Node, DeriveError>
    requires c.Valid()
  {
    if !s.hardened && !IsScalar(n.key) then Err(BadPrivateKey)
    else Ok(Node(NatToBytes((BytesToNat(n.key) + Tweak(c, n, s)) % ORDER, 32), Hash(c, n, s)[32..]))
  }

  /** Copy `source` into `target` from position `at` on. */
  method CopyInto(target: array<byte>, source: seq<byte>, at: nat)
    requires at + |source| <= target.Length
    modifies target
    ensures target[..] == old(target[..at]) + source + old(target[at + |source|..])
  {
    for i := 0 to |source|
      invariant target[..] == old(target[..at]) + source[..i] + old(target[at + i..])
    {
      target[at + i] := source[i];
    }
  }

  lemma ShiftTwice(n: nat)
    ensures n / 256 / 256 == n / 0x1_0000 && n / 0x1_0000 / 256 == n / 0x100_0000
  {
  }

  /** The four shifted and masked bytes of a child number. */
  lemma NumberBytes(n: nat)
    ensures NatToBytes(n, 4) == [n / 0x100_0000 % 256, n / 0x1_0000 % 256, n / 0x100 % 256, n % 256]
  {
    ShiftTwice(n);
    assert Digits(n / 0x100_0000, 256, 1) == [n / 0x100_0000 % 256];
    assert Digits(n / 0x1_0000, 256, 2) == Digits(n / 0x100_0000, 256, 1) + [n / 0x1_0000 % 256];
    assert Digits(n / 0x100, 256, 3) == Digits(n / 0x1_0000, 256, 2) + [n / 0x100 % 256];
  }

  /** Four bytes that name a child: the top bit says hardened, the other 31 are
      the index. */
  predicate SpellsChild(four: seq<byte>, s: Segment) {
    && |four| == 4
    && (four[0] >= 128 <==> s.hardened)
    && BytesToNat(four) % 0x8000_0000 == s.index
  }

  lemma TopBit(n: nat)
    requires n < 0x1_0000_0000
    ensures n / 0x100_0000 % 256 >= 128 <==> n >= 0x8000_0000
  {
  }

  lemma NumberParts(s: Segment)
    requires s.index <= MAX_INDEX
    ensures ChildNumber(s) < 0x1_0000_0000 && ChildNumber(s) % 0x8000_0000 == s.index
    ensures ChildNumber(s) >= 0x8000_0000 <==> s.hardened
  {
  }

  lemma NumberSpells(s: Segment)
    requires s.index <= MAX_INDEX
    ensures SpellsChild(NatToBytes(ChildNumber(s), 4), s)
  {
    var number := ChildNumber(s);
    NumberParts(s);
    TopBit(number);
    NumberBytes(number);
    FourByteRoundTrip(number);
  }

  method DeriveChild(c: Curve, parent: Node, s: Segment) returns (r: Result<Node, DeriveError>)
    requires c.Valid() && ValidNode(parent)
    ensures r == Child(c, parent, s)
    ensures r.Ok? ==> ValidNode(r.value)
  {
    if !s.hardened && !IsScalar(parent.key) {
      return Err(BadPrivateKey);
    }
    var data := Fill(c, parent, s);
    var derived := c.hmac(parent.chainCode, data);
    var key := AddScalars(parent.key, derived[..32]);
    r := Ok(Node(key, derived[32..]));
  }

  /** The 37 bytes that are hashed, written one field after the other. */
  method Fill(c: Curve, parent: Node, s: Segment) returns (r: seq<byte>)
    requires c.Valid() && ValidNode(parent)
    ensures r == ChildData(Head(c, parent, s), ChildNumber(s))
    ensures |r| == 37 && (s.index <= MAX_INDEX ==> SpellsChild(r[33..], s))
  {
    var data := new byte[37](_ => 0);
    if s.hardened {
      data[0] := 0;
      CopyInto(data, parent.key, 1);
    } else {
      CopyInto(data, c.compressed(parent.key), 0);
    }
    assert data[..33] == Head(c, parent, s);
    var number := ChildNumber(s);
    data[33] := number / 0x100_0000 % 256;
    data[34] := number / 0x1_0000 % 256;
    data[35] := number / 0x100 % 256;
    data[36] := number % 256;
    NumberBytes(number);
    r := data[..];
    assert r[33..] == NatToBytes(number, 4);
    assert r == r[..33] + r[33..];
    if s.index <= MAX_INDEX {
      NumberSpells(s);
    }
  }

  /** The sum of two scalars modulo the group order. */
  method AddScalars(key: seq<byte>, tweak: seq<byte>) returns (r: seq<byte>)
    requires |key| == |tweak| == 32
    ensures r == NatToBytes((BytesToNat(key) + BytesToNat(tweak)) % ORDER, 32)
  {
    var a := new byte[32](i requires 0 <= i < 32 => key[i]);
    var b := new byte[32](i requires 0 <= i < 32 => tweak[i]);
    assert a[..] == key && b[..] == tweak;
    var x := BytesToBigInt(a);
    var y := BytesToBigInt(b);
    var sum := BigIntToBytes((x + y) % ORDER, 32);
    r := sum[..];
  }

  lemma FourBytes()
    ensures Pow(256, 4) == 0x1_0000_0000
  {
    assert Pow(256, 2) == 0x1_0000;
    PowAdd(256, 2, 2);
  }

  /** For indices below 2^31 the child number is told apart by index and by
      hardening, and so are the four bytes that are hashed. */
  lemma ChildNumberInjective(s: Segment, t: Segment)
    requires s.index <= MAX_INDEX && t.index <= MAX_INDEX
    ensures ChildNumber(s) < 0x1_0000_0000
    ensures NatToBytes(ChildNumber(s), 4) == NatToBytes(ChildNumber(t), 4) <==> s == t
  {
    FourByteRoundTrip(ChildNumber(s));
    FourByteRoundTrip(ChildNumber(t));
  }

  lemma FourByteRoundTrip(v: nat)
    requires v < 0x1_0000_0000
    ensures BytesToNat(NatToBytes(v, 4)) == v
  {
    FourBytes();
    NatRoundTrip(v, 4);
  }

  /** Two hardened or two normal children of nodes hash the same data exactly
      when index and key material agree; hardened and normal never do. */
  lemma ChildDataInjective(c: Curve, n: Node, s: Segment, m: Node, t: Segment)
    requires c.Valid() && ValidNode(n) && ValidNode(m)
    requires s.index <= MAX_INDEX && t.index <= MAX_INDEX
    ensures ChildData(Head(c, n, s), ChildNumber(s)) == ChildData(Head(c, m, t), ChildNumber(t))
      <==> s == t && (if s.hardened then n.key == m.key else c.compressed(n.key) == c.compressed(m.key))
  {
    var a, b := ChildData(Head(c, n, s), ChildNumber(s)), ChildData(Head(c, m, t), ChildNumber(t));
    ChildNumberInjective(s, t);
    assert a[..33] == Head(c, n, s) && b[..33] == Head(c, m, t);
    assert a[33..] == NatToBytes(ChildNumber(s), 4) && b[33..] == NatToBytes(ChildNumber(t), 4);
    if s.hardened && t.hardened {
      assert Head(c, n, s)[1..] == n.key && Head(c, m, t)[1..] == m.key;
    }
  }

  // ---- A path of steps ----------------------------------------------------

  function Descend(c: Curve, n: Node, segments: seq<Segment>): Result<Node, DeriveError>
    requires c.Valid()
    decreases |segments|
  {
    if segments == [] then Ok(n)
    else match Descend(c, n, segments[..|segments| - 1])
      case Err(e) => Err(e)
      case Ok(parent) => Child(c, parent, segments[|segments| - 1])
  }

  function Master(c: Curve, salt: seq<byte>, seed: seq<byte>): Node
    requires c.Valid()
  {
    var h := c.hmac(salt, seed);
    Node(h[..32], h[32..])
  }

  function Utf8(s: string): seq<byte>
    requires forall i :: 0 <= i < |s| ==> s[i] < '\U{80}'
  {
    seq(|s|, i requires 0 <= i < |s| => s[i] as int)
  }

  const BITCOIN_SEED := "Bitcoin seed"
  const ED25519_SEED := "ed25519 seed"

  function Derive(c: Curve, seed: seq<byte>, path: string): Result<KeyPair, DeriveError>
    requires c.Valid()
  {
    match Parse(path)
    case Err(e) => Err(BadPath(e))
    case Ok(segments) =>
      match Descend(c, Master(c, Utf8(BITCOIN_SEED), seed), segments)
      case Err(e) => Err(e)
      case Ok(n) => if IsScalar(n.key) then Ok(KeyPair(n, c.uncompressed(n.key))) else Err(BadPrivateKey)
  }

  method DerivePath(c: Curve, seed: seq<byte>, path: string) returns (r: Result<KeyPair, DeriveError>)
    requires c.Valid()
    ensures r == Derive(c, seed, path)
  {
    var parsed := ParsePath(path);
    if parsed.Err? {
      return Err(BadPath(parsed.error));
    }
    var derived := DeriveAlong(c, Master(c, Utf8(BITCOIN_SEED), seed), parsed.value);
    if derived.Err? {
      return Err(derived.error);
    }
    var n := derived.value;
    if !IsScalar(n.key) {
      return Err(BadPrivateKey);
    }
    r := Ok(KeyPair(n, c.uncompressed(n.key)));
  }

  method DeriveAlong(c: Curve, start: Node, segments: seq<Segment>) returns (r: Result<Node, DeriveError>)
    requires c.Valid() && ValidNode(start)
    ensures r == Descend(c, start, segments)
    ensures r.Ok? ==> ValidNode(r.value)
  {
    var n := start;
    for i := 0 to |segments|
      invariant ValidNode(n)
      invariant Descend(c, start, segments[..i]) == Ok(n)
    {
      assert segments[..i + 1][..i] == segments[..i];
      var child := DeriveChild(c, n, segments[i]);
      if child.Err? {
        DescendStops(c, start, segments, i + 1);
        return Err(child.error);
      }
      n := child.value;
    }
    assert segments[..|segments|] == segments;
    r := Ok(n);
  }

  lemma {:induction false} DescendStops(c: Curve, n: Node, segments: seq<Segment>, k: nat)
    requires c.Valid() && k <= |segments| && Descend(c, n, segments[..k]).Err?
    ensures Descend(c, n, segments) == Descend(c, n, segments[..k])
  {
    if k == |segments| {
      assert segments[..k] == segments;
    } else {
      assert segments[..|segments| - 1][..k] == segments[..k];
      DescendStops(c, n, segments[..|segments| - 1], k);
    }
  }

  /** Deriving along a path is deriving along its two halves in turn. */
  lemma {:induction false} DescendConcat(c: Curve, n: Node, p: seq<Segment>, q: seq<Segment>)
    requires c.Valid()
    ensures Descend(c, n, p + q) == match Descend(c, n, p) case Err(e) => Err(e) case Ok(m) => Descend(c, m, q)
  {
    if q == [] {
      assert p + q == p;
    } else {
      var init := q[..|q| - 1];
      assert (p + q)[..|p + q| - 1] == p + init;
      DescendConcat(c, n, p, init);
    }
  }

  // ---- What the key is ----------------------------------------------------

  /** The left halves of all hashes along the path, added up. */
  function TweakSum(c: Curve, n: Node, segments: seq<Segment>): nat
    requires c.Valid()
    decreases |segments|
  {
    if segments == [] then 0
    else
      var init := segments[..|segments| - 1];
      TweakSum(c, n, init)
      + match Descend(c, n, init) case Err(_) => 0 case Ok(m) => Tweak(c, m, segments[|segments| - 1])
  }

  lemma OrderFits()
    ensures ORDER < Pow(256, 32)
  {
    FourBytes();
    PowAdd(256, 4, 4);
    PowAdd(256, 8, 8);
    PowAdd(256, 16, 16);
  }

  lemma ChildScalar(c: Curve, n: Node, s: Segment)
    requires c.Valid() && Child(c, n, s).Ok?
    ensures ValidNode(Child(c, n, s).value)
    ensures BytesToNat(Child(c, n, s).value.key) == (BytesToNat(n.key) + Tweak(c, n, s)) % ORDER
  {
    OrderFits();
    NatRoundTrip((BytesToNat(n.key) + Tweak(c, n, s)) % ORDER, 32);
  }

  /** The last step of a path. */
  lemma LastStep(c: Curve, n: Node, init: seq<Segment>, last: Segment)
    requires c.Valid() && Descend(c, n, init).Ok?
    ensures var m := Descend(c, n, init).value;
      && Descend(c, n, init + [last]) == Child(c, m, last)
      && TweakSum(c, n, init + [last]) == TweakSum(c, n, init) + Tweak(c, m, last)
  {
    assert (init + [last])[..|init|] == init;
  }

  lemma LastStepFails(c: Curve, n: Node, init: seq<Segment>, last: Segment)
    requires c.Valid() && Descend(c, n, init).Err?
    ensures Descend(c, n, init + [last]) == Descend(c, n, init)
  {
    assert (init + [last])[..|init|] == init;
  }

  /** `m` is reached from `n` with the left halves adding up to `sum`. */
  predicate IsSum(m: Node, n: Node, sum: nat) {
    ValidNode(m) && BytesToNat(m.key) == (BytesToNat(n.key) + sum) % ORDER
  }

  lemma SumModulo(start: nat, sum: nat, scalar: nat, tweak: nat, total: nat)
    requires (scalar == start && sum == 0) || scalar == (start + sum) % ORDER
    requires total == sum + tweak
    ensures (scalar + tweak) % ORDER == (start + total) % ORDER
  {
  }

  lemma SumExtends(c: Curve, n: Node, parent: Node, sum: nat, s: Segment, m: Node, total: nat)
    requires c.Valid() && Child(c, parent, s) == Ok(m) && total == sum + Tweak(c, parent, s)
    requires (parent == n && sum == 0) || IsSum(parent, n, sum)
    ensures IsSum(m, n, total)
  {
    ChildScalar(c, parent, s);
    SumModulo(BytesToNat(n.key), sum, BytesToNat(parent.key), Tweak(c, parent, s), total);
  }

  /** What the last step of a path does to the key. */
  lemma LastStepOk(c: Curve, n: Node, segments: seq<Segment>, m: Node) returns (init: seq<Segment>, last: Segment, parent: Node)
    requires c.Valid() && segments != [] && Descend(c, n, segments) == Ok(m)
    ensures segments == init + [last]
    ensures Descend(c, n, init) == Ok(parent) && Child(c, parent, last) == Ok(m)
    ensures TweakSum(c, n, segments) == TweakSum(c, n, init) + Tweak(c, parent, last)
  {
    init, last := segments[..|segments| - 1], segments[|segments| - 1];
    assert segments == init + [last];
    assert Descend(c, n, init).Ok?;
    parent := Descend(c, n, init).value;
    LastStep(c, n, init, last);
  }

  /** After any non-empty path the private key is the starting key plus all
      left halves, modulo the group order, and 32 bytes hold it untruncated. */
  lemma {:induction false} KeyIsSum(c: Curve, n: Node, segments: seq<Segment>, m: Node)
    requires c.Valid() && segments != [] && Descend(c, n, segments) == Ok(m)
    ensures IsSum(m, n, TweakSum(c, n, segments))
    decreases |segments|
  {
    var init, last, parent := LastStepOk(c, n, segments, m);
    if init != [] {
      KeyIsSum(c, n, init, parent);
    }
    SumExtends(c, n, parent, TweakSum(c, n, init), last, m, TweakSum(c, n, segments));
  }

  /** The first place where a public key is needed of a key that has none. */
  ghost predicate StuckAt(c: Curve, n: Node, segments: seq<Segment>, k: nat)
    requires c.Valid() && k < |segments|
  {
    && !segments[k].hardened
    && Descend(c, n, segments[..k]).Ok?
    && !IsScalar(Descend(c, n, segments[..k]).value.key)
  }

  lemma StuckPrefix(c: Curve, n: Node, init: seq<Segment>, last: Segment, k: nat)
    requires c.Valid() && k < |init|
    ensures StuckAt(c, n, init + [last], k) == StuckAt(c, n, init, k)
  {
    assert (init + [last])[..k] == init[..k];
  }

  /** Derivation along a path fails exactly in front of a normal step from a
      key outside 1..ORDER-1; hardened steps never fail. */
  lemma {:induction false} DescendFailsIff(c: Curve, n: Node, segments: seq<Segment>)
    requires c.Valid()
    ensures Descend(c, n, segments).Err? <==> exists k :: 0 <= k < |segments| && StuckAt(c, n, segments, k)
  {
    if segments != [] {
      var init, last := segments[..|segments| - 1], segments[|segments| - 1];
      assert segments == init + [last];
      assert segments[..|init|] == init;
      DescendFailsIff(c, n, init);
      forall k | 0 <= k < |init|
        ensures StuckAt(c, n, segments, k) == StuckAt(c, n, init, k)
      {
        StuckPrefix(c, n, init, last, k);
      }
      if Descend(c, n, init).Err? {
        LastStepFails(c, n, init, last);
        var k :| 0 <= k < |init| && StuckAt(c, n, init, k);
        assert StuckAt(c, n, segments, k);
      } else {
        LastStep(c, n, init, last);
        assert Descend(c, n, segments).Err? <==> StuckAt(c, n, segments, |init|);
      }
    }
  }

  /** The keys handed out: the master key itself for "m", the reduced sum for
      any longer path; always a scalar of the curve. */
  lemma DerivedKeyIsSum(c: Curve, seed: seq<byte>, path: string)
    requires c.Valid() && Derive(c, seed, path).Ok?
    ensures var master, n := Master(c, Utf8(BITCOIN_SEED), seed), Derive(c, seed, path).value.node;
      && Parse(path).Ok? && IsScalar(n.key)
      && IsSum(n, master, TweakSum(c, master, Parse(path).value))
  {
    var master := Master(c, Utf8(BITCOIN_SEED), seed);
    var segments := Parse(path).value;
    if segments != [] {
      KeyIsSum(c, master, segments, Descend(c, master, segments).value);
    }
  }

  /** The EVM key of an index sits at the intended node; any index outside
      0..2^31-1 is refused before a key is derived. */
  lemma EvmKey(c: Curve, seed: seq<byte>, index: int)
    requires c.Valid()
    ensures !(0 <= index <= MAX_INDEX) ==> Derive(c, seed, EvmPath(index)).Err? && Derive(c, seed, EvmPath(index)).error.BadPath?
    ensures 0 <= index <= MAX_INDEX && Derive(c, seed, EvmPath(index)).Ok? ==>
      Ok(Derive(c, seed, EvmPath(index)).value.node) == Descend(c, Master(c, Utf8(BITCOIN_SEED), seed), EvmSegments(index))
  {
    EvmPathParses(index);
  }

  // ---- Ed25519 ------------------------------------------------------------

  /** Every step is hardened, marked so or not, and the left half of the hash
      is the key itself. */
  function EdChild(c: Curve, n: Node, s: Segment): (r: Node)
    requires c.Valid()
    ensures ValidNode(r)
  {
    var h := Hash(c, n, Segment(s.index, true));
    Node(h[..32], h[32..])
  }

  function EdDescend(c: Curve, n: Node, segments: seq<Segment>): (r: Node)
    requires c.Valid()
    ensures ValidNode(n) ==> ValidNode(r)
    decreases |segments|
  {
    if segments == [] then n else EdChild(c, EdDescend(c, n, segments[..|segments| - 1]), segments[|segments| - 1])
  }

  function EdDerive(c: Curve, seed: seq<byte>, path: string): Result<Node, DeriveError>
    requires c.Valid()
  {
    match Parse(path)
    case Err(e) => Err(BadPath(e))
    case Ok(segments) => Ok(EdDescend(c, Master(c, Utf8(ED25519_SEED), seed), segments))
  }

  method DeriveEd25519Path(c: Curve, seed: seq<byte>, path: string) returns (r: Result<Node, DeriveError>)
    requires c.Valid()
    ensures r == EdDerive(c, seed, path)
  {
    var parsed := ParsePath(path);
    if parsed.Err? {
      return Err(BadPath(parsed.error));
    }
    var n := DeriveEd25519Along(c, Master(c, Utf8(ED25519_SEED), seed), parsed.value);
    r := Ok(n);
  }

  method DeriveEd25519Along(c: Curve, start: Node, segments: seq<Segment>) returns (n: Node)
    requires c.Valid() && ValidNode(start)
    ensures n == EdDescend(c, start, segments)
  {
    n := start;
    for i := 0 to |segments|
      invariant ValidNode(n) && n == EdDescend(c, start, segments[..i])
    {
      assert segments[..i + 1][..i] == segments[..i];
      var data := Fill(c, n, Segment(segments[i].index, true));
      var derived := c.hmac(n.chainCode, data);
      n := Node(derived[..32], derived[32..]);
    }
    assert segments[..|segments|] == segments;
  }

  /** Only the indices of a path matter: leaving out the hardening marks gives
      the same key. */
  lemma {:induction false} EdIgnoresMarks(c: Curve, n: Node, p: seq<Segment>, q: seq<Segment>)
    requires c.Valid() && |p| == |q|
    requires forall i :: 0 <= i < |p| ==> p[i].index == q[i].index
    ensures EdDescend(c, n, p) == EdDescend(c, n, q)
    decreases |p|
  {
    if p != [] {
      EdIgnoresMarks(c, n, p[..|p| - 1], q[..|q| - 1]);
    }
  }

  /** A signing key exists for every index from 0 to 2^31 - 1 and no other, at
      the intended node and with 32 bytes. */
  lemma Ed25519Key(c: Curve, seed: seq<byte>, index: int)
    requires c.Valid()
    ensures EdDerive(c, seed, Ed25519Path(index)).Ok? <==> 0 <= index <= MAX_INDEX
    ensures 0 <= index <= MAX_INDEX ==>
      var n := EdDerive(c, seed, Ed25519Path(index)).value;
      ValidNode(n) && n == EdDescend(c, Master(c, Utf8(ED25519_SEED), seed), Ed25519Segments(index))
  {
    Ed25519PathParses(index);
  }
}
