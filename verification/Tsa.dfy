/**
 The DER reader and the RFC 3161 walk (app/engines/tsa.py), against the writer
 of Asn1.  Reading never fails silently: an index past the end is the source's
 IndexError, a slice past the end is clamped.
 */
module Tsa {
  import opened Enums
  import opened Bytes
  import opened Asn1

  datatype Element = Element(tag: Byte, content: Bytes)

  datatype ReadResult = ReadResult(element: Element, next: nat)

  /** `_read_tlv`; `None` is the IndexError. */
  function ReadTlv(buf: Bytes, off: nat): (r: Option<ReadResult>)
    ensures r.Some? ==> r.value.next >= off + 2 && off + 2 <= |buf|
  {
    if off + 1 >= |buf| then None
    else if buf[off + 1] >= 0x80 then
      var n := buf[off + 1] - 0x80;
      Some(ReadContent(buf, buf[off], off + 2 + n, FromBytes(Slice(buf, off + 2, off + 2 + n))))
    else Some(ReadContent(buf, buf[off], off + 2, buf[off + 1]))
  }

  function ReadContent(buf: Bytes, tag: Byte, start: nat, length: nat): ReadResult {
    ReadResult(Element(tag, Slice(buf, start, start + length)), start + length)
  }

  /** The elements from `off` on; `None` when one of them cannot be read. */
  function ChildrenFrom(buf: Bytes, off: nat): Option<seq<Element>>
    decreases |buf| - off
  {
    if off >= |buf| then Some([])
    else
      match ReadTlv(buf, off)
      case None => None
      case Some(r) =>
        match ChildrenFrom(buf, r.next)
        case None => None
        case Some(rest) => Some([r.element] + rest)
  }

  /** The offset loop of `_children`: it ends on any bytes, because the offset strictly grows. */
  method Children(buf: Bytes) returns (elements: Option<seq<Element>>)
    ensures elements == ChildrenFrom(buf, 0)
  {
    var off := 0;
    var found: seq<Element> := [];
    ghost var all := ChildrenFrom(buf, 0);
    assert forall rest: seq<Element> :: [] + rest == rest;
    while off < |buf|
      invariant match ChildrenFrom(buf, off)
                case None => all.None?
                case Some(rest) => all == Some(found + rest)
      decreases |buf| - off
    {
      var r := ReadTlv(buf, off);
      if r.None? {
        return None;
      }
      assert forall rest: seq<Element> :: found + ([r.value.element] + rest) == (found + [r.value.element]) + rest;
      found := found + [r.value.element];
      off := r.value.next;
    }
    assert found + [] == found;
    return Some(found);
  }

  // ---- Reading what the writer wrote ----------------------------------------

  lemma ReadShort(buf: Bytes, off: nat, tag: Byte, value: Bytes, next: nat)
    requires |value| < 0x80 && off <= |buf| && ([tag] + [|value|]) + value <= buf[off..]
    requires next == off + 2 + |value|
    ensures ReadTlv(buf, off) == Some(ReadResult(Element(tag, value), next))
  {
    var tlv := ([tag] + [|value|]) + value;
    assert buf[off..][0] == tlv[0] && buf[off..][1] == tlv[1];
    assert Slice(buf, off + 2, off + 2 + |value|) == value by {
      assert buf[off..][..|tlv|][2..] == value;
    }
  }

  lemma LongLayout(pre: Bytes, tag: Byte, first: Byte, size: Bytes, value: Bytes, rest: Bytes)
    ensures var buf := pre + ([tag] + ([first] + size) + value) + rest;
            && |buf| > |pre| + 1 && buf[|pre|] == tag && buf[|pre| + 1] == first
            && Slice(buf, |pre| + 2, |pre| + 2 + |size|) == size
            && Slice(buf, |pre| + 2 + |size|, |pre| + 2 + |size| + |value|) == value
  {
  }

  /** What the reader sees of a long-form TLV: the size octets only as the number they stand for. */
  ghost predicate LongForm(buf: Bytes, off: nat, tag: Byte, n: nat, value: Bytes) {
    && off + 1 < |buf| && buf[off] == tag && buf[off + 1] == 0x80 + n
    && FromBytes(Slice(buf, off + 2, off + 2 + n)) == |value|
    && Slice(buf, off + 2 + n, off + 2 + n + |value|) == value
  }

  lemma {:induction false} SizeIsRead(
    buf: Bytes, pre: Bytes, tag: Byte, first: Byte, size: Bytes, value: Bytes, rest: Bytes)
    requires first == 0x80 + |size| && FromBytes(size) == |value|
    requires buf == pre + ([tag] + ([first] + size) + value) + rest
    ensures LongForm(buf, |pre|, tag, |size|, value)
  {
    LongLayout(pre, tag, first, size, value, rest);
  }

  lemma ReadLongForm(buf: Bytes, off: nat, tag: Byte, n: nat, value: Bytes)
    requires LongForm(buf, off, tag, n, value)
    ensures ReadTlv(buf, off) == Some(ReadResult(Element(tag, value), off + 2 + n + |value|))
  {
    assert ReadTlv(buf, off) == Some(ReadContent(buf, tag, off + 2 + n, |value|));
  }

  lemma LongTlv(tag: Byte, value: Bytes)
    requires |value| >= 0x80 && Encodable(|value|)
    ensures var size := Minimal(|value|);
            && |size| < 0x80 && FromBytes(size) == |value|
            && Tlv(tag, value) == [tag] + ([0x80 + |size|] + size) + value
            && |Tlv(tag, value)| == 2 + |size| + |value|
  {
    MinimalIsMinimal(|value|);
  }

  lemma LongFormOf(buf: Bytes, off: nat, tag: Byte, value: Bytes, rest: Bytes)
    requires |value| >= 0x80 && Encodable(|value|) && off <= |buf|
    requires buf == buf[..off] + Tlv(tag, value) + rest
    ensures LongForm(buf, off, tag, |Tlv(tag, value)| - |value| - 2, value)
  {
    LongTlv(tag, value);
    SizeIsRead(buf, buf[..off], tag, 0x80 + |Minimal(|value|)|, Minimal(|value|), value, rest);
  }

  lemma SplitAt(buf: Bytes, off: nat, part: Bytes)
    requires off <= |buf| && part <= buf[off..]
    ensures off + |part| <= |buf| && buf == buf[..off] + part + buf[off + |part|..]
  {
  }

  /** Wherever a written element sits in a buffer, `_read_tlv` returns its tag, its content and its end. */
  lemma ReadAt(buf: Bytes, off: nat, tag: Byte, value: Bytes)
    requires Encodable(|value|) && off <= |buf| && Tlv(tag, value) <= buf[off..]
    ensures ReadTlv(buf, off) == Some(ReadResult(Element(tag, value), off + |Tlv(tag, value)|))
  {
    var next := off + |Tlv(tag, value)|;
    if |value| < 0x80 {
      ReadShort(buf, off, tag, value, next);
    } else {
      SplitAt(buf, off, Tlv(tag, value));
      LongFormOf(buf, off, tag, value, buf[next..]);
      ReadLongForm(buf, off, tag, next - off - |value| - 2, value);
    }
  }

  /** `_read_tlv` undoes `_tlv`, with the end offset, whatever follows. */
  lemma ReadUndoesTlv(tag: Byte, value: Bytes, rest: Bytes)
    requires Encodable(|value|)
    ensures ReadTlv(Tlv(tag, value) + rest, 0) == Some(ReadResult(Element(tag, value), |Tlv(tag, value)|))
  {
    var buf := Tlv(tag, value) + rest;
    assert buf[0..] == buf;
    ReadAt(buf, 0, tag, value);
  }

  /** The length octets are the shortest a DER reader may accept (X.690 section 10.1). */
  lemma LengthIsShortest(size: nat)
    requires Encodable(size)
    ensures |Length(size)| == 1 <==> size < 0x80
    ensures |Length(size)| > 1 ==> Length(size)[0] == 0x7F + |Length(size)| && Length(size)[1] != 0
    ensures forall longer: Bytes :: FromBytes(longer) == size && size >= 0x80 ==> |Length(size)| <= 1 + |longer|
  {
    if size >= 0x80 {
      OctetStep(size);
      MinimalIsMinimal(size);
      assert Length(size)[1..] == Minimal(size);
      forall longer: Bytes | FromBytes(longer) == size ensures |Length(size)| <= 1 + |longer| {
        OnlyZerosInFront(longer);
      }
    }
  }

  function Elements(kids: seq<Node>): seq<Element>
    requires AllFit(kids)
  {
    if kids == [] then [] else [Element(kids[0].tag, Content(kids[0]))] + Elements(kids[1..])
  }

  lemma {:induction false} ChildrenUndoEncode(buf: Bytes, off: nat, kids: seq<Node>)
    requires AllFit(kids) && off <= |buf| && buf[off..] == EncodeAll(kids)
    ensures ChildrenFrom(buf, off) == Some(Elements(kids))
    decreases |kids|
  {
    if kids != [] {
      var first := Element(kids[0].tag, Content(kids[0]));
      var next := off + |Tlv(first.tag, first.content)|;
      FirstChild(buf, off, first, EncodeAll(kids[1..]), next);
      ChildrenUndoEncode(buf, next, kids[1..]);
      ChildrenStep(buf, off, ReadResult(first, next), Elements(kids[1..]));
    }
  }

  lemma FirstChild(buf: Bytes, off: nat, first: Element, rest: Bytes, next: nat)
    requires Encodable(|first.content|) && off <= |buf|
    requires buf[off..] == Tlv(first.tag, first.content) + rest && next == off + |Tlv(first.tag, first.content)|
    ensures off < next <= |buf| && buf[next..] == rest
    ensures ReadTlv(buf, off) == Some(ReadResult(first, next))
  {
    ReadAt(buf, off, first.tag, first.content);
    DropFirst(buf, off, Tlv(first.tag, first.content), rest);
  }

  lemma DropFirst(buf: Bytes, off: nat, first: Bytes, rest: Bytes)
    requires off <= |buf| && buf[off..] == first + rest
    ensures off + |first| <= |buf| && buf[off + |first|..] == rest
  {
    assert buf[off + |first|..] == buf[off..][|first|..];
  }

  lemma {:induction false} ChildrenStep(buf: Bytes, off: nat, r: ReadResult, rest: seq<Element>)
    requires off < |buf| && ReadTlv(buf, off) == Some(r) && ChildrenFrom(buf, r.next) == Some(rest)
    ensures ChildrenFrom(buf, off) == Some([r.element] + rest)
  {
  }

  /** `_children` of any concatenation of TLVs is exactly that list. */
  lemma {:induction false} ChildrenOf(n: Node)
    requires Fits(n) && n.Cons?
    ensures ChildrenFrom(Content(n), 0) == Some(Elements(n.kids))
  {
    assert Content(n)[0..] == Content(n);
    ChildrenUndoEncode(Content(n), 0, n.kids);
  }

  lemma {:induction false} ElementAt(kids: seq<Node>, i: nat)
    requires AllFit(kids) && i < |kids|
    ensures |Elements(kids)| == |kids|
    ensures Fits(kids[i]) && Elements(kids)[i] == Element(kids[i].tag, Content(kids[i]))
  {
    ElementCount(kids);
    if i > 0 {
      ElementAt(kids[1..], i - 1);
    }
  }

  lemma {:induction false} ElementCount(kids: seq<Node>)
    requires AllFit(kids)
    ensures |Elements(kids)| == |kids|
  {
    if kids != [] {
      ElementCount(kids[1..]);
    }
  }

  // ---- The walk of a TimeStampResp ------------------------------------------

  /**
   The result dictionary; `genTime` keeps the bytes that the source decodes for display.
   `trustedCaPresent` is only set for a provider that names a trusted CA file.
   */
  datatype Verdict = Verdict(
    structuralOk: bool,
    granted: Option<bool>,
    imprintMatches: Option<bool>,
    imprint: Option<Bytes>,
    genTime: Option<Bytes>,
    trustedCaPresent: Option<bool>)

  const UNREAD := Verdict(false, None, None, None, None, None)

  const SEQUENCE: Byte := 0x30
  const OCTET_STRING: Byte := 0x04
  const CONTEXT_0: Byte := 0xA0

  /** `next((c for t, c in elements if t == 0xA0), None)`. */
  function FirstContext(elements: seq<Element>): Option<Bytes> {
    if elements == [] then None
    else if elements[0].tag == CONTEXT_0 then Some(elements[0].content)
    else FirstContext(elements[1..])
  }

  /** Content of the element read at offset 0 when it carries the wanted tag. */
  function Unwrap(buf: Bytes, tag: Byte): Option<Bytes> {
    match ReadTlv(buf, 0)
    case None => None
    case Some(r) => if r.element.tag == tag then Some(r.element.content) else None
  }

  function ChildrenOrNone(buf: Option<Bytes>): Option<seq<Element>> {
    match buf
    case None => None
    case Some(b) => ChildrenFrom(b, 0)
  }

  /** From the ContentInfo to the elements of TSTInfo (RFC 3161 section 2.4.2). */
  function TstElements(contentInfo: Bytes): Option<seq<Element>> {
    match ChildrenFrom(contentInfo, 0)
    case None => None
    case Some(info) =>
      match FirstContext(info)
      case None => None
      case Some(explicit) =>
        match ChildrenOrNone(Unwrap(explicit, SEQUENCE))
        case None => None
        case Some(signed) =>
          if |signed| < 3 then None
          else
            match ChildrenFrom(signed[2].content, 0)
            case None => None
            case Some(encap) =>
              match FirstContext(encap)
              case None => None
              case Some(wrapped) =>
                match Unwrap(wrapped, OCTET_STRING)
                case None => None
                case Some(der) => ChildrenOrNone(Unwrap(der, SEQUENCE))
  }

  /**
   The fields read out of TSTInfo; `expected` is `None` when the stored digest is not
   hexadecimal, `anchor` unless the provider names a CA file, and then whether it exists.
   */
  function ReadTst(granted: Verdict, tst: seq<Element>, expected: Option<Bytes>, anchor: Option<bool>): Verdict {
    if |tst| < 3 then granted
    else
      match ChildrenFrom(tst[2].content, 0)
      case None => granted
      case Some(imprintSeq) =>
        if imprintSeq == [] || expected.None? then granted
        else
          var imprint := imprintSeq[|imprintSeq| - 1].content;
          var matched := granted.(imprintMatches := Some(imprint == expected.value), imprint := Some(imprint));
          if |tst| < 5 then matched
          else matched.(genTime := Some(tst[4].content), structuralOk := true, trustedCaPresent := anchor)
  }

  function Walk(blob: Bytes, expected: Option<Bytes>, anchor: Option<bool>): Verdict {
    match ChildrenOrNone(Unwrap(blob, SEQUENCE))
    case None => UNREAD
    case Some(elems) =>
      if elems == [] then UNREAD
      else
        match ChildrenFrom(elems[0].content, 0)
        case None => UNREAD
        case Some(statusInfo) =>
          if statusInfo == [] then UNREAD
          else
            var granted := FromBytes(statusInfo[0].content) <= 1;
            var started := UNREAD.(granted := Some(granted));
            if !granted || |elems| < 2 then started.(structuralOk := true)
            else
              match TstElements(elems[1].content)
              case None => started
              case Some(tst) => ReadTst(started, tst, expected, anchor)
  }

  /** `_verify_rfc3161` filling its result step by step; every exception leaves what was set so far. */
  method VerifyRfc3161(blob: Bytes, expected: Option<Bytes>, anchor: Option<bool>) returns (result: Verdict)
    ensures result == Walk(blob, expected, anchor)
  {
    result := UNREAD;
    var outer := ReadTlv(blob, 0);
    if outer.None? || outer.value.element.tag != SEQUENCE {
      return;
    }
    var elems := Children(outer.value.element.content);
    if elems.None? || elems.value == [] {
      return;
    }
    var statusInfo := Children(elems.value[0].content);
    if statusInfo.None? || statusInfo.value == [] {
      return;
    }
    var status := FromBytes(statusInfo.value[0].content);
    result := result.(granted := Some(status == 0 || status == 1));
    if status > 1 || |elems.value| < 2 {
      result := result.(structuralOk := true);
      return;
    }
    var tst := WalkToTst(elems.value[1].content);
    if tst.None? || |tst.value| < 3 {
      return;
    }
    var imprintSeq := Children(tst.value[2].content);
    if imprintSeq.None? || imprintSeq.value == [] || expected.None? {
      return;
    }
    var imprint := imprintSeq.value[|imprintSeq.value| - 1].content;
    result := result.(imprintMatches := Some(imprint == expected.value));
    result := result.(imprint := Some(imprint));
    if |tst.value| < 5 {
      return;
    }
    result := result.(genTime := Some(tst.value[4].content));
    result := result.(structuralOk := true);
    if anchor.Some? {
      result := result.(trustedCaPresent := anchor);
    }
  }

  method WalkToTst(contentInfo: Bytes) returns (tst: Option<seq<Element>>)
    ensures tst == TstElements(contentInfo)
  {
    var info := Children(contentInfo);
    if info.None? {
      return None;
    }
    var explicit := FirstContext(info.value);
    if explicit.None? {
      return None;
    }
    var signedData := ReadTlv(explicit.value, 0);
    if signedData.None? || signedData.value.element.tag != SEQUENCE {
      return None;
    }
    var signed := Children(signedData.value.element.content);
    if signed.None? || |signed.value| < 3 {
      return None;
    }
    var encap := Children(signed.value[2].content);
    if encap.None? {
      return None;
    }
    var wrapped := FirstContext(encap.value);
    if wrapped.None? {
      return None;
    }
    var octets := ReadTlv(wrapped.value, 0);
    if octets.None? || octets.value.element.tag != OCTET_STRING {
      return None;
    }
    var der := ReadTlv(octets.value.element.content, 0);
    if der.None? || der.value.element.tag != SEQUENCE {
      return None;
    }
    tst := Children(der.value.element.content);
  }

  // ---- Responses composed with the writer -----------------------------------

  /** A token: the fields the walk reads, and arbitrary nodes where it does not look. */
  datatype Token = Token(
    contentType: Bytes, sdVersion: Node, sdDigests: Node, sdRest: seq<Node>,
    eContentType: Bytes,
    version: Node, policy: Node, algorithm: Node, digest: Bytes, serial: Node, genTime: Bytes, tstRest: seq<Node>)

  const OID: Byte := 0x06
  const INTEGER: Byte := 0x02
  const GENERALIZED_TIME: Byte := 0x18

  function ImprintNode(t: Token): Node {
    Cons(SEQUENCE, [t.algorithm, Prim(OCTET_STRING, t.digest)])
  }

  function TstNode(t: Token): Node {
    Cons(SEQUENCE, [t.version, t.policy, ImprintNode(t), t.serial, Prim(GENERALIZED_TIME, t.genTime)] + t.tstRest)
  }

  function EncapNode(t: Token): Node
    requires Fits(TstNode(t))
  {
    Cons(SEQUENCE, [Prim(OID, t.eContentType), Cons(CONTEXT_0, [Prim(OCTET_STRING, Encode(TstNode(t)))])])
  }

  function SignedDataNode(t: Token): Node
    requires Fits(TstNode(t))
  {
    Cons(SEQUENCE, [t.sdVersion, t.sdDigests, EncapNode(t)] + t.sdRest)
  }

  function ContentInfoNode(t: Token): Node
    requires Fits(TstNode(t))
  {
    Cons(SEQUENCE, [Prim(OID, t.contentType), Cons(CONTEXT_0, [SignedDataNode(t)])])
  }

  function StatusNode(status: nat, statusRest: seq<Node>): Node {
    Cons(SEQUENCE, [Prim(INTEGER, IntegerContent(status))] + statusRest)
  }

  function ResponseNode(status: nat, statusRest: seq<Node>, token: Option<Token>): Node
    requires token.Some? ==> Fits(TstNode(token.value))
  {
    Cons(SEQUENCE, [StatusNode(status, statusRest)]
                   + (if token.Some? then [ContentInfoNode(token.value)] else []))
  }

  lemma {:induction false} UnwrapUndoesEncode(n: Node)
    requires Fits(n)
    ensures Unwrap(Encode(n), n.tag) == Some(Content(n))
  {
    ReadUndoesTlv(n.tag, Content(n), []);
    assert Tlv(n.tag, Content(n)) + [] == Encode(n);
  }

  /** A constructed node whose only child is `n`. */
  lemma {:induction false} SingleChild(tag: Byte, n: Node)
    requires Fits(Cons(tag, [n]))
    ensures Fits(n) && Content(Cons(tag, [n])) == Encode(n)
  {
    assert AllFit([n]) && Fits([n][0]);
    assert [n][1..] == [];
    assert EncodeAll([n]) == Tlv(n.tag, Content(n)) + [];
  }

  /** `[oid, [0] inner]`: the walk steps through both wrappers. */
  lemma {:induction false} ContextPair(oid: Bytes, inner: Node)
    requires Fits(Cons(SEQUENCE, [Prim(OID, oid), Cons(CONTEXT_0, [inner])]))
    ensures Fits(inner)
    ensures var n := Cons(SEQUENCE, [Prim(OID, oid), Cons(CONTEXT_0, [inner])]);
            && ChildrenFrom(Content(n), 0).Some?
            && FirstContext(ChildrenFrom(Content(n), 0).value) == Some(Encode(inner))
  {
    var kids := [Prim(OID, oid), Cons(CONTEXT_0, [inner])];
    ChildrenOf(Cons(SEQUENCE, kids));
    ElementAt(kids, 0);
    ElementAt(kids, 1);
    SingleChild(CONTEXT_0, inner);
    var found := Elements(kids);
    assert found == [found[0], found[1]];
    assert found[1..] == [found[1]];
  }

  lemma TstReadsBack(t: Token)
    requires Fits(TstNode(t)) && Fits(ContentInfoNode(t))
    ensures TstElements(Content(ContentInfoNode(t))) == Some(Elements(TstNode(t).kids))
  {
    var signed := SignedDataNode(t);
    ContextPair(t.contentType, signed);
    UnwrapUndoesEncode(signed);
    ChildrenOf(signed);
    ElementAt(signed.kids, 2);
    assert signed.kids[2] == EncapNode(t);
    var octets := Prim(OCTET_STRING, Encode(TstNode(t)));
    ContextPair(t.eContentType, octets);
    UnwrapUndoesEncode(octets);
    UnwrapUndoesEncode(TstNode(t));
    ChildrenOf(TstNode(t));
  }

  lemma ImprintReadsBack(t: Token)
    requires Fits(TstNode(t))
    ensures var tst := Elements(TstNode(t).kids);
            && |tst| >= 5
            && tst[4].content == t.genTime
            && ChildrenFrom(tst[2].content, 0).Some?
            && var imprint := ChildrenFrom(tst[2].content, 0).value;
               |imprint| == 2 && imprint[1].content == t.digest
  {
    var kids := TstNode(t).kids;
    ElementAt(kids, 2);
    ElementAt(kids, 4);
    assert kids[2] == ImprintNode(t) && kids[4] == Prim(GENERALIZED_TIME, t.genTime);
    ChildrenOf(ImprintNode(t));
    ElementAt(ImprintNode(t).kids, 1);
  }

  /**
   The walk inverts the writer: for every response composed with it, whatever the
   other fields, the status decides `granted`; a granted token is structurally fine,
   returns its genTime, and matches exactly when it embeds the expected digest.
   */
  lemma ResponseReadsBack(
    status: nat, statusRest: seq<Node>, token: Option<Token>, expected: Bytes, anchor: Option<bool>)
    requires token.Some? ==> Fits(TstNode(token.value))
    requires Fits(ResponseNode(status, statusRest, token))
    ensures var granted := status <= 1;
            Walk(Encode(ResponseNode(status, statusRest, token)), Some(expected), anchor) ==
            if granted && token.Some? then
              Verdict(true, Some(true), Some(token.value.digest == expected),
                      Some(token.value.digest), Some(token.value.genTime), anchor)
            else Verdict(true, Some(granted), None, None, None, None)
  {
    var n := ResponseNode(status, statusRest, token);
    UnwrapUndoesEncode(n);
    ChildrenOf(n);
    ElementAt(n.kids, 0);
    var info := StatusNode(status, statusRest);
    assert n.kids[0] == info;
    ChildrenOf(info);
    ElementAt(info.kids, 0);
    assert info.kids[0] == Prim(INTEGER, IntegerContent(status));
    IntegerReadsBackUnsigned(status);
    if token.Some? {
      ElementAt(n.kids, 1);
      assert n.kids[1] == ContentInfoNode(token.value);
      if status <= 1 {
        TstReadsBack(token.value);
        ImprintReadsBack(token.value);
      }
    }
  }

  // ---- The request ----------------------------------------------------------

  /** SHA-256, 2.16.840.1.101.3.4.2.1. */
  const SHA256_OID: seq<nat> := [2, 16, 840, 1, 101, 3, 4, 2, 1]

  const BOOLEAN: Byte := 0x01
  const NULL: Byte := 0x05

  function AlgorithmNode(): Node {
    Cons(SEQUENCE, [Prim(OID, [96] + Arcs(SHA256_OID[2..])), Prim(NULL, [])])
  }

  lemma {:induction false} PairReadsBack(x: Node, y: Node)
    requires Fits(Cons(SEQUENCE, [x, y]))
    ensures Fits(x) && Fits(y)
    ensures ChildrenFrom(Content(Cons(SEQUENCE, [x, y])), 0)
         == Some([Element(x.tag, Content(x)), Element(y.tag, Content(y))])
  {
    ChildrenOf(Cons(SEQUENCE, [x, y]));
    ElementAt([x, y], 0);
    ElementAt([x, y], 1);
    var found := Elements([x, y]);
    assert found == [found[0], found[1]];
  }

  lemma Sha256ReadsBack()
    ensures ReadOid([96] + Arcs(SHA256_OID[2..])) == Some(SHA256_OID)
  {
    var oid := SHA256_OID;
    assert oid[0] == 2 && oid[1] == 16;
    OidReadsBack(oid);
  }

  /** `build_timestamp_request` (RFC 3161 section 2.4.1), the nonce an input. */
  function RequestNode(digest: Bytes, nonce: nat, certReq: bool): Node {
    Cons(SEQUENCE, [
           Prim(INTEGER, IntegerContent(1)),
           Cons(SEQUENCE, [
                  AlgorithmNode(),
                  Prim(OCTET_STRING, digest)]),
           Prim(INTEGER, IntegerContent(nonce)),
           Prim(BOOLEAN, [if certReq then 0xff else 0x00])])
  }

  /** A reader of the request gets the version, the digest, the unsigned nonce and the flag back. */
  lemma RequestReadsBack(digest: Bytes, nonce: nat, certReq: bool)
    requires Fits(RequestNode(digest, nonce, certReq))
    ensures var n := RequestNode(digest, nonce, certReq);
            && Unwrap(Encode(n), SEQUENCE) == Some(Content(n))
            && ChildrenFrom(Content(n), 0).Some?
            && var fields := ChildrenFrom(Content(n), 0).value;
               && |fields| == 4
               && FromBytes(fields[0].content) == 1
               && FromBytes(fields[2].content) == nonce
               && (fields[3].content == [0xff] <==> certReq)
               && ChildrenFrom(fields[1].content, 0).Some?
               && var imprint := ChildrenFrom(fields[1].content, 0).value;
                  && |imprint| == 2 && imprint[1] == Element(OCTET_STRING, digest)
                  && ChildrenFrom(imprint[0].content, 0).Some?
                  && var algorithm := ChildrenFrom(imprint[0].content, 0).value;
                     && |algorithm| == 2 && algorithm[1] == Element(NULL, [])
                     && algorithm[0].tag == OID && ReadOid(algorithm[0].content) == Some(SHA256_OID)
  {
    var n := RequestNode(digest, nonce, certReq);
    UnwrapUndoesEncode(n);
    ChildrenOf(n);
    ElementAt(n.kids, 0);
    ElementAt(n.kids, 1);
    ElementAt(n.kids, 2);
    ElementAt(n.kids, 3);
    PairReadsBack(AlgorithmNode(), Prim(OCTET_STRING, digest));
    PairReadsBack(Prim(OID, [96] + Arcs(SHA256_OID[2..])), Prim(NULL, []));
    Sha256ReadsBack();
    IntegerReadsBackUnsigned(1);
    IntegerReadsBackUnsigned(nonce);
  }
}
