/**
 The Mobility Header messages the senders build: the Proxy Binding Update
 (section 8.1 of RFC 5213, extending the Binding Update of section 6.1.7 of
 RFC 6275) and the Proxy Binding Acknowledgement (section 8.2 of RFC 5213,
 extending section 6.1.8 of RFC 6275). A message is a fixed 12-octet header
 (the common fields of section 6.1.1 of RFC 6275 and 6 octets of message
 data) followed by mobility options, its length a multiple of 8 octets.

 The header classes' bit layout is not part of this model; the octets below
 follow the RFC figures.
 */
module MobilityHeader {
  import opened Octets
  import opened Wrappers
  import opened MobilityOptions

  /** Payload Proto: IPPROTO_NONE, as section 6.1.1 of RFC 6275 requires. */
  const PayloadProtoNone: uint8 := 59
  const PbuMhType: uint8 := 5
  const PbaMhType: uint8 := 6

  /** `sizeof(pbu)` and `sizeof(pba)`: 6 common octets and 6 octets of message data. */
  const MessageHeaderSize: nat := 12

  /** Header Len is one octet counting 8-octet units beyond the first 8. */
  const MaxLength: nat := 2048

  /** A (acknowledge) and P (proxy registration) in the PBU flag octet |A|H|L|K|M|R|P|. */
  const PbuAckBit: uint8 := 0x80
  const PbuProxyRegBit: uint8 := 0x02

  /** P (proxy registration) in the PBA flag octet |K|R|P|. */
  const PbaProxyRegBit: uint8 := 0x20

  /** The message data following the common fields; `lifetime` is in units of 4 seconds. */
  datatype Body =
    | PbuBody(sequence: uint16, ack: bool, proxyReg: bool, lifetime: nat)
    | PbaBody(status: uint8, proxyReg: bool, sequence: uint16, lifetime: nat)

  /** The MH Type constant `init` writes for a message. */
  function MhType(b: Body): uint8 {
    if b.PbuBody? then PbuMhType else PbaMhType
  }

  /** A message: its data, its options in order, and its total length in octets. */
  datatype Message = Message(body: Body, options: seq<MhOption>, length: nat)

  /** The header plus the options, before rounding up. */
  function Unpadded(m: Message): nat {
    MessageHeaderSize + TotalSize(m.options)
  }

  /** A message the wire format can carry: its length a multiple of 8 that holds header and options. */
  predicate WellFormed(m: Message) {
    && AllValid(m.options)
    && m.length % 8 == 0
    && Unpadded(m) <= m.length <= MaxLength
  }

  /** The Header Len octet for a message of the given length. */
  function HeaderLen(length: nat): (r: uint8)
    requires length % 8 == 0 && 8 <= length <= MaxLength
    ensures (r as int + 1) * 8 == length
  {
    (length / 8 - 1) as uint8
  }

  /** The common fields `init(mh_type, length)` fills in; the checksum is left zero. */
  function CommonBytes(mhType: uint8, length: nat): (r: Bytes)
    requires length % 8 == 0 && 8 <= length <= MaxLength
    ensures |r| == 6
  {
    [PayloadProtoNone, HeaderLen(length), mhType, 0, 0, 0]
  }

  function PbuFlags(ack: bool, proxyReg: bool): uint8 {
    (if ack then PbuAckBit else 0) + (if proxyReg then PbuProxyRegBit else 0)
  }

  function PbaFlags(proxyReg: bool): uint8 {
    if proxyReg then PbaProxyRegBit else 0
  }

  /** The 6 octets of message data; the 16-bit Lifetime field keeps the low 16 bits. */
  function BodyBytes(b: Body): (r: Bytes)
    ensures |r| == 6
  {
    match b
    case PbuBody(sq, a, p, lt) => BE16(sq) + [PbuFlags(a, p), 0] + BE16(Low16(lt))
    case PbaBody(st, p, sq, lt) => [st, PbaFlags(p)] + BE16(sq) + BE16(Low16(lt))
  }

  /** The first `length` octets of the sender's buffer: header, options, zero padding. */
  function Image(m: Message): (b: Bytes)
    requires WellFormed(m)
    ensures |b| == m.length
  {
    CommonBytes(MhType(m.body), m.length) + BodyBytes(m.body)
      + EncodeAll(m.options) + Zeros(m.length - Unpadded(m))
  }

  function ParseBody(mhType: uint8, d: Bytes): Option<Body>
    requires |d| == 6
  {
    if mhType == PbuMhType then
      Some(PbuBody(FromBE16(d[0], d[1]), HasBit(d[2], PbuAckBit), HasBit(d[2], PbuProxyRegBit),
                   FromBE16(d[4], d[5]) as nat))
    else if mhType == PbaMhType then
      Some(PbaBody(d[0], HasBit(d[1], PbaProxyRegBit), FromBE16(d[2], d[3]), FromBE16(d[4], d[5]) as nat))
    else None
  }

  /** A receiver's reading of a PBU or PBA; the checksum and reserved bits are not checked. */
  function Parse(b: Bytes): Option<Message> {
    if |b| < MessageHeaderSize || b[0] != PayloadProtoNone || (b[1] as int + 1) * 8 != |b| then None
    else
      var body :- ParseBody(b[2], b[6..12]);
      var os :- MobilityOptions.Parse(b[12..]);
      Some(Message(body, os, |b|))
  }

  /** The body as the 16-bit Lifetime field carries it. */
  function OnWire(b: Body): Body {
    b.(lifetime := Low16(b.lifetime) as nat)
  }

  lemma PbuFlagsBits(ack: bool, proxyReg: bool)
    ensures HasBit(PbuFlags(ack, proxyReg), PbuAckBit) == ack
    ensures HasBit(PbuFlags(ack, proxyReg), PbuProxyRegBit) == proxyReg
  {
    if ack && proxyReg {
      assert PbuFlags(ack, proxyReg) == 0x82;
    } else if ack {
      assert PbuFlags(ack, proxyReg) == 0x80;
    } else if proxyReg {
      assert PbuFlags(ack, proxyReg) == 0x02;
    } else {
      assert PbuFlags(ack, proxyReg) == 0;
    }
  }

  lemma ParseBodyBytes(b: Body)
    ensures ParseBody(MhType(b), BodyBytes(b)) == Some(OnWire(b))
  {
    var d := BodyBytes(b);
    var s, l := BE16(b.sequence), BE16(Low16(b.lifetime));
    BE16RoundTrip(b.sequence);
    BE16RoundTrip(Low16(b.lifetime));
    match b
    case PbuBody(sq, a, p, lt) =>
      assert d[0] == s[0] && d[1] == s[1] && d[2] == PbuFlags(a, p) && d[4] == l[0] && d[5] == l[1];
      PbuFlagsBits(a, p);
    case PbaBody(st, p, sq, lt) =>
      assert d[0] == st && d[1] == PbaFlags(p) && d[2] == s[0] && d[3] == s[1] && d[4] == l[0] && d[5] == l[1];
      assert HasBit(PbaFlags(p), PbaProxyRegBit) == p;
  }

  /** Where the parts of a message sit in its octets. */
  lemma ImageParts(m: Message)
    requires WellFormed(m)
    ensures Image(m)[..6] == CommonBytes(MhType(m.body), m.length)
    ensures Image(m)[6..12] == BodyBytes(m.body)
    ensures Image(m)[12..Unpadded(m)] == EncodeAll(m.options)
    ensures Image(m)[Unpadded(m)..] == Zeros(m.length - Unpadded(m))
  {
    var b := Image(m);
    var common := CommonBytes(MhType(m.body), m.length);
    var data := BodyBytes(m.body);
    var opts := EncodeAll(m.options);
    var pad := Zeros(m.length - Unpadded(m));
    assert b == common + data + opts + pad;
  }

  /**
   A well-formed message's octets parse back to the same message: same
   type, data, options in the same order and length; only the lifetime is
   cut to its low 16 bits.
   */
  lemma {:induction false} ParseImage(m: Message)
    requires WellFormed(m)
    ensures Parse(Image(m)) == Some(m.(body := OnWire(m.body)))
  {
    var b := Image(m);
    ImageParts(m);
    var common := CommonBytes(MhType(m.body), m.length);
    assert b[0] == common[0] && b[1] == common[1] && b[2] == common[2];
    var opts, pad := EncodeAll(m.options), Zeros(m.length - Unpadded(m));
    assert b[12..] == opts + pad by {
      assert b[12..] == b[12..Unpadded(m)] + b[Unpadded(m)..];
    }
    ParseBodyBytes(m.body);
    ParseEncodeAll(m.options, m.length - Unpadded(m));
  }
}
