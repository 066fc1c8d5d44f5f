/**
 The DER writer (app/engines/asn1.py): definite lengths in shortest form
 (ITU-T X.690 sections 8.1.3 and 10.1), INTEGER (8.3), OBJECT IDENTIFIER (8.19).
 */
module Asn1 {
  import opened Enums
  import opened Bytes

  /** The length form of the standard reaches 127 length octets. */
  predicate Encodable(size: nat) {
    OctetLength(size) <= 127
  }

  function Length(size: nat): (b: Bytes)
    requires Encodable(size)
    ensures |b| == LengthSize(size)
  {
    if size < 0x80 then [size] else [0x80 + OctetLength(size)] + Minimal(size)
  }

  function LengthSize(size: nat): nat {
    if size < 0x80 then 1 else 1 + OctetLength(size)
  }

  function Tlv(tag: Byte, value: Bytes): Bytes
    requires Encodable(|value|)
  {
    [tag] + Length(|value|) + value
  }

  /** Content octets of `encode_integer`. */
  function IntegerContent(value: nat): (b: Bytes)
    ensures b != []
  {
    if value == 0 then [0]
    else
      assert value < Pow256((BitLength(value) + 8) / 8) by {
        OctetLengthExact(value);
        Pow256Monotone(OctetLength(value), (BitLength(value) + 8) / 8);
      }
      var stripped := LStrip(ToBytes(value, (BitLength(value) + 8) / 8));
      if stripped == [] then [0] else stripped
  }

  /** Unsigned reading recovers every value, in the fewest octets. */
  lemma IntegerReadsBackUnsigned(value: nat)
    ensures FromBytes(IntegerContent(value)) == value
    ensures |IntegerContent(value)| == if value == 0 then 1 else OctetLength(value)
    ensures value > 0 ==> IntegerContent(value)[0] != 0
  {
    if value == 0 {
      assert [0 as Byte][..0] == [];
    } else {
      OctetLengthExact(value);
      Pow256Monotone(OctetLength(value), (BitLength(value) + 8) / 8);
      var raw := ToBytes(value, (BitLength(value) + 8) / 8);
      BytesRoundTrip(value, |raw|);
      LStripKeepsValue(raw);
      OnlyZerosInFront(LStrip(raw));
    }
  }

  /** X.690 section 8.3.3: the content octets are a two's complement number. */
  function TwosComplement(b: Bytes): int
    requires b != []
  {
    if b[0] >= 0x80 then FromBytes(b) - Pow256(|b|) else FromBytes(b)
  }

  /** Without a leading zero, the bits of a number are those of its first octet and eight for each other. */
  lemma {:induction false} BitsOfBytes(b: Bytes)
    requires b != [] && b[0] != 0
    ensures FromBytes(b) > 0 && BitLength(FromBytes(b)) == 8 * (|b| - 1) + BitLength(b[0])
  {
    var n := |b| - 1;
    if n == 0 {
      assert b[..0] == [];
    } else {
      BitsOfBytes(b[..n]);
      HalveEight(FromBytes(b));
      assert FromBytes(b) / 256 == FromBytes(b[..n]);
    }
  }

  /** An octet has eight bits exactly when its top bit is set. */
  lemma {:induction false} TopBit(x: Byte)
    requires x > 0
    ensures 1 <= BitLength(x) <= 8 && (BitLength(x) == 8 <==> x >= 0x80)
  {
    HalveEight(x);
    if x < 0x80 {
      HalveEight(2 * x);
      assert 2 * x / 2 == x;
    }
  }

  /**
   The writer strips the sign octet, so a reader following X.690 gets the value back
   exactly unless its bits fill whole octets.
   */
  lemma {:induction false} IntegerReadsBackSigned(value: nat)
    ensures TwosComplement(IntegerContent(value)) == value <==> value == 0 || BitLength(value) % 8 != 0
  {
    IntegerReadsBackUnsigned(value);
    if value > 0 {
      var b := IntegerContent(value);
      BitsOfBytes(b);
      TopBit(b[0]);
    }
  }

  /** 128 becomes -128, and it is the first value that reads back wrong. */
  lemma SignOctetIsMissing(value: nat)
    ensures TwosComplement(IntegerContent(128)) == -128
    ensures value < 128 ==> TwosComplement(IntegerContent(value)) == value
  {
    IntegerReadsBackUnsigned(128);
    OctetStep(128);
    OctetStep(0);
    assert Pow256(1) == 256 * Pow256(0);
    if 0 < value < 128 {
      TopBit(value);
      IntegerReadsBackSigned(value);
    }
  }

  // ---- Object identifiers ---------------------------------------------------

  /** Base-128 digits, every one marked as continued. */
  function Continued(n: nat): Bytes {
    if n == 0 then [] else Continued(n / 128) + [n % 128 + 128]
  }

  function Base128(arc: nat): Bytes {
    Continued(arc / 128) + [arc % 128]
  }

  function Arcs(arcs: seq<nat>): Bytes {
    if arcs == [] then [] else Arcs(arcs[..|arcs| - 1]) + Base128(arcs[|arcs| - 1])
  }

  function Reverse(b: Bytes): (r: Bytes)
    ensures |r| == |b|
  {
    if b == [] then [] else Reverse(b[1..]) + [b[0]]
  }

  lemma {:induction false} ReverseAppend(b: Bytes, x: Byte)
    ensures Reverse(b + [x]) == [x] + Reverse(b)
  {
    if b != [] {
      ReverseAppend(b[1..], x);
      assert (b + [x])[1..] == b[1..] + [x];
    }
  }

  /** Two arcs at least, and their combination must be one octet: otherwise the source raises. */
  predicate OidEncodable(oid: seq<nat>) {
    |oid| >= 2 && oid[0] * 40 + oid[1] < 256
  }

  /** The loops of `encode_oid`, up to the content octets; `None` is the exception. */
  method EncodeOidContent(oid: seq<nat>) returns (content: Option<Bytes>)
    ensures content == if OidEncodable(oid) then Some([oid[0] * 40 + oid[1]] + Arcs(oid[2..])) else None
  {
    if |oid| < 2 || oid[0] * 40 + oid[1] > 255 {
      return None;
    }
    var body: Bytes := [oid[0] * 40 + oid[1]];
    for i := 2 to |oid|
      invariant body == [oid[0] * 40 + oid[1]] + Arcs(oid[2..i])
    {
      var component := oid[i] / 128;
      var chunks: Bytes := [oid[i] % 128];
      while component != 0
        invariant Base128(oid[i]) == Continued(component) + Reverse(chunks)
      {
        ReverseAppend(chunks, component % 128 + 128);
        chunks := chunks + [component % 128 + 128];
        component := component / 128;
      }
      assert oid[2..i + 1][..i - 2] == oid[2..i];
      body := body + Reverse(chunks);
    }
    assert oid[2..|oid|] == oid[2..];
    return Some(body);
  }

  /** A base-128 reader (X.690 section 8.19.2); `None` when the last arc is cut short. */
  function ReadArcs(b: Bytes, acc: nat, inside: bool): Option<seq<nat>> {
    if b == [] then (if inside then None else Some([]))
    else
      var value := acc * 128 + b[0] % 128;
      if b[0] >= 128 then ReadArcs(b[1..], value, true)
      else
        match ReadArcs(b[1..], 0, false)
        case None => None
        case Some(rest) => Some([value] + rest)
  }

  lemma {:induction false} ReadContinued(n: nat, tail: Bytes)
    requires n > 0
    ensures ReadArcs(Continued(n) + tail, 0, false) == ReadArcs(tail, n, true)
  {
    var x: Byte := n % 128 + 128;
    assert Continued(n) + tail == Continued(n / 128) + ([x] + tail);
    assert ([x] + tail)[1..] == tail;
    if n / 128 > 0 {
      ReadContinued(n / 128, [x] + tail);
    } else {
      assert Continued(n / 128) + ([x] + tail) == [x] + tail;
    }
  }

  lemma {:induction false} ReadOneArc(arc: nat, tail: Bytes)
    ensures ReadArcs(Base128(arc) + tail, 0, false) ==
            match ReadArcs(tail, 0, false)
            case None => None
            case Some(rest) => Some([arc] + rest)
  {
    var last: Byte := arc % 128;
    assert Base128(arc) + tail == Continued(arc / 128) + ([last] + tail);
    assert ([last] + tail)[1..] == tail;
    if arc / 128 > 0 {
      ReadContinued(arc / 128, [last] + tail);
    } else {
      assert Continued(arc / 128) + ([last] + tail) == [last] + tail;
    }
  }

  lemma {:induction false} ReadAllArcs(arcs: seq<nat>, tail: Bytes)
    ensures ReadArcs(Arcs(arcs) + tail, 0, false) ==
            match ReadArcs(tail, 0, false)
            case None => None
            case Some(rest) => Some(arcs + rest)
  {
    if arcs == [] {
      assert Arcs(arcs) + tail == tail;
      assert ReadArcs(tail, 0, false).Some? ==> arcs + ReadArcs(tail, 0, false).value == ReadArcs(tail, 0, false).value;
    } else {
      var n := |arcs| - 1;
      assert Arcs(arcs) + tail == Arcs(arcs[..n]) + (Base128(arcs[n]) + tail);
      ReadAllArcs(arcs[..n], Base128(arcs[n]) + tail);
      ReadOneArc(arcs[n], tail);
      if ReadArcs(tail, 0, false).Some? {
        var rest := ReadArcs(tail, 0, false).value;
        assert arcs[..n] + ([arcs[n]] + rest) == arcs + rest;
      }
    }
  }

  /** An arc never starts with an empty digit (0x80): the encoding is the shortest. */
  lemma {:induction false} NoLeadingPadding(arc: nat)
    ensures Base128(arc)[0] != 0x80
    ensures arc > 0 ==> Continued(arc) != [] && Continued(arc)[0] != 0x80
    decreases arc
  {
    if arc >= 128 {
      NoLeadingPadding(arc / 128);
    }
  }

  function Ends(b: Bytes): nat {
    if b == [] then 0 else (if b[0] < 128 then 1 else 0) + Ends(b[1..])
  }

  lemma {:induction false} ArcsAreEnds(b: Bytes, acc: nat, inside: bool)
    ensures ReadArcs(b, acc, inside).Some? ==> |ReadArcs(b, acc, inside).value| == Ends(b)
  {
    if b != [] {
      ArcsAreEnds(b[1..], acc * 128 + b[0] % 128, true);
      ArcsAreEnds(b[1..], 0, false);
    }
  }

  /** Splits the first number into two arcs (X.690 section 8.19.4). */
  function SplitFirst(first: nat): seq<nat> {
    if first < 40 then [0, first] else if first < 80 then [1, first - 40] else [2, first - 80]
  }

  /** A standard reader of the content octets. */
  function ReadOid(content: Bytes): Option<seq<nat>> {
    match ReadArcs(content, 0, false)
    case None => None
    case Some(arcs) => if arcs == [] then None else Some(SplitFirst(arcs[0]) + arcs[1..])
  }

  /** The combined first number and all later arcs are recovered exactly when that number fits seven bits. */
  lemma CombinedReadsBack(oid: seq<nat>)
    requires OidEncodable(oid)
    ensures var first := oid[0] * 40 + oid[1];
            var read := ReadArcs([first] + Arcs(oid[2..]), 0, false);
            if first < 128 then read == Some([first] + oid[2..])
            else read.Some? ==> |read.value| == |oid| - 2
  {
    var first: Byte := oid[0] * 40 + oid[1];
    var rest := Arcs(oid[2..]);
    assert ([first] + rest)[1..] == rest;
    ReadAllArcs(oid[2..], []);
    assert rest + [] == rest && oid[2..] + [] == oid[2..];
    if first >= 128 {
      ArcsAreEnds([first] + rest, 0, false);
      ArcsAreEnds(rest, 0, false);
    }
  }

  /** What a standard identifier satisfies, and the source does not test. */
  predicate StandardOid(oid: seq<nat>)
    requires |oid| >= 2
  {
    oid[0] <= 2 && (oid[0] < 2 ==> oid[1] < 40)
  }

  lemma SplitUndoesCombine(a: nat, b: nat)
    ensures SplitFirst(a * 40 + b) == [a, b] <==> a <= 2 && (a < 2 ==> b < 40)
  {
  }

  /**
   The whole identifier reads back exactly when its first two arcs are standard and
   their combination fits seven bits: from 128 on it is read as continued.
   */
  lemma OidReadsBack(oid: seq<nat>)
    requires OidEncodable(oid)
    ensures ReadOid([oid[0] * 40 + oid[1]] + Arcs(oid[2..])) == Some(oid) <==>
            StandardOid(oid) && oid[0] * 40 + oid[1] < 128
  {
    CombinedReadsBack(oid);
    SplitUndoesCombine(oid[0], oid[1]);
    var first := oid[0] * 40 + oid[1];
    if first < 128 {
      var read := SplitFirst(first) + oid[2..];
      assert ([first] + oid[2..])[1..] == oid[2..];
      assert read[..2] == SplitFirst(first) && read[2..] == oid[2..];
      assert oid == oid[..2] + oid[2..] && oid[..2] == [oid[0], oid[1]];
    }
  }

  /** Accepted, and read back as another identifier: 0.50 becomes 1.10. */
  lemma NonStandardOidChanges()
    ensures OidEncodable([0, 50]) && ReadOid([50] + Arcs([])) == Some([1, 10])
  {
    var oid: seq<nat> := [0, 50];
    CombinedReadsBack(oid);
    assert oid[2..] == [] && [50] + oid[2..] == [50];
    assert SplitFirst(50) + [50][1..] == [1, 10];
  }

  // ---- Trees of TLVs --------------------------------------------------------

  datatype Node = Prim(tag: Byte, content: Bytes) | Cons(tag: Byte, kids: seq<Node>)

  /** Size of a node's content octets. */
  function Size(n: Node): nat
    decreases n, 1
  {
    match n
    case Prim(_, content) => |content|
    case Cons(_, kids) => SizeAll(kids)
  }

  function SizeAll(kids: seq<Node>): nat
    decreases kids, 0
  {
    if kids == [] then 0
    else 1 + LengthSize(Size(kids[0])) + Size(kids[0]) + SizeAll(kids[1..])
  }

  /** Every length in the tree is within the 127-octet length form. */
  predicate Fits(n: Node)
    decreases n, 1
  {
    Encodable(Size(n)) && (n.Cons? ==> AllFit(n.kids))
  }

  predicate AllFit(kids: seq<Node>)
    decreases kids, 0
  {
    kids == [] || (Fits(kids[0]) && AllFit(kids[1..]))
  }

  /** Content octets of a node, written with `_tlv` and concatenation only. */
  function Content(n: Node): (b: Bytes)
    requires Fits(n)
    ensures |b| == Size(n)
    decreases n, 1
  {
    match n
    case Prim(_, content) => content
    case Cons(_, kids) => EncodeAll(kids)
  }

  function EncodeAll(kids: seq<Node>): (b: Bytes)
    requires AllFit(kids)
    ensures |b| == SizeAll(kids)
    decreases kids, 0
  {
    if kids == [] then [] else Tlv(kids[0].tag, Content(kids[0])) + EncodeAll(kids[1..])
  }

  function Encode(n: Node): Bytes
    requires Fits(n)
  {
    Tlv(n.tag, Content(n))
  }
}
