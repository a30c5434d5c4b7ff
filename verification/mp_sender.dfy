/**
 The Proxy Binding Update and Proxy Binding Acknowledgement senders: each
 turns a binding-info value into a Mobility Header message addressed to the
 binding's peer.

 Both senders zero-fill their buffer, fill in the message data, convert the
 lifetime from milliseconds to 4-second units, append the NAI, Handoff
 Indicator and Access Technology Type options at a running offset, round the
 running length up to a multiple of 8 and only then write the MH Type and
 Header Len fields.
 */
module MpSender {
  import opened Octets
  import opened Wrappers
  import opened Ipv6
  import opened MobilityOptions
  import opened MobilityHeader

  /** `proxy_binding_info`: what the session logic hands to a sender. */
  datatype BindingInfo = BindingInfo(
    address: Address,
    sequence: uint16,
    lifetime: nat,        // milliseconds
    id: Bytes,            // the mobile node's NAI
    handoff: uint8,
    linkType: uint8,
    status: uint8)        // read by the PBA sender only

  /** Milliseconds per unit of the Lifetime field (4 seconds). */
  const LifetimeUnitMs: nat := 4000

  /** The NAI option's one-octet Length field can describe the identifier. */
  predicate Encodable(info: BindingInfo) {
    |info.id| <= MaxNaiIdLength
  }

  /** The options both senders append, in the order they append them. */
  function BindingOptions(info: BindingInfo): seq<MhOption> {
    [Nai(NaiSubtype, info.id), Handoff(info.handoff), Att(info.linkType)]
  }

  /** The octets of the three options apart from the identifier. */
  const FixedOptionsSize: nat := NaiFixedSize + HandoffSize + AttSize

  /** The message content apart from the identifier: header and fixed option octets. */
  const FixedContentSize: nat := MessageHeaderSize + FixedOptionsSize

  /** Where the identifier starts in the message: after the header and the NAI's fixed octets. */
  const IdOffset: nat := MessageHeaderSize + NaiFixedSize

  /** A built message and the endpoint it is sent to. */
  datatype Sender = Sender(endpoint: Address, message: Message)

  /** The three options take their fixed octets plus the identifier, laid out one after another. */
  lemma BindingOptionsEncoding(info: BindingInfo)
    requires Encodable(info)
    ensures AllValid(BindingOptions(info))
    ensures TotalSize(BindingOptions(info)) == FixedOptionsSize + |info.id|
    ensures EncodeAll(BindingOptions(info))
         == Encode(Nai(NaiSubtype, info.id)) + Encode(Handoff(info.handoff)) + Encode(Att(info.linkType))
  {
    var os := BindingOptions(info);
    assert os[1..] == [os[1], os[2]];
    assert os[1..][1..] == [os[2]];
    assert os[1..][1..][1..] == [];
    assert TotalSize(os[1..][1..]) == Size(os[2]);
    assert EncodeAll(os[1..][1..]) == Encode(os[2]);
    assert TotalSize(os[1..]) == Size(os[1]) + Size(os[2]);
    assert EncodeAll(os[1..]) == Encode(os[1]) + Encode(os[2]);
  }

  /**
   A binding message: the given data, the three options, and the running
   length rounded up to a multiple of 8; the content is the fixed octets plus the
   identifier.
   */
  function BindingMessage(info: BindingInfo, body: Body): (m: Message)
    requires Encodable(info)
    ensures WellFormed(m)
    ensures Unpadded(m) == FixedContentSize + |info.id|
    ensures m.length == AlignTo8(Unpadded(m))
  {
    BindingOptionsEncoding(info);
    var os := BindingOptions(info);
    Message(body, os, AlignTo8(MessageHeaderSize + TotalSize(os)))
  }

  /**
   `pbu_sender::pbu_sender`: a PBU to the binding's address with the
   sequence number, A and P set, the lifetime in whole 4-second units, the
   NAI, Handoff and ATT options in that order, and the content rounded up
   to a multiple of 8.
   */
  function PbuSender(info: BindingInfo): (s: Sender)
    requires Encodable(info)
    ensures s.endpoint == info.address
    ensures s.message.body.PbuBody? && s.message.body.sequence == info.sequence
    ensures s.message.body.ack && s.message.body.proxyReg
    ensures s.message.body.lifetime * LifetimeUnitMs <= info.lifetime < (s.message.body.lifetime + 1) * LifetimeUnitMs
    ensures s.message.options == [Nai(NaiSubtype, info.id), Handoff(info.handoff), Att(info.linkType)]
    ensures s.message.length == AlignTo8(FixedContentSize + |info.id|)
    ensures WellFormed(s.message)
  {
    Sender(info.address,
           BindingMessage(info, PbuBody(info.sequence, true, true, info.lifetime / LifetimeUnitMs)))
  }

  /**
   `pba_sender::pba_sender`: a PBA to the binding's address with the status
   and sequence number copied, P set, the lifetime in whole 4-second units,
   the same three options and the same rounding as the PBU.
   */
  function PbaSender(info: BindingInfo): (s: Sender)
    requires Encodable(info)
    ensures s.endpoint == info.address
    ensures s.message.body.PbaBody? && s.message.body.status == info.status
    ensures s.message.body.sequence == info.sequence && s.message.body.proxyReg
    ensures s.message.body.lifetime * LifetimeUnitMs <= info.lifetime < (s.message.body.lifetime + 1) * LifetimeUnitMs
    ensures s.message.options == [Nai(NaiSubtype, info.id), Handoff(info.handoff), Att(info.linkType)]
    ensures s.message.length == AlignTo8(FixedContentSize + |info.id|)
    ensures WellFormed(s.message)
  {
    Sender(info.address,
           BindingMessage(info, PbaBody(info.status, true, info.sequence, info.lifetime / LifetimeUnitMs)))
  }

  /**
   What a receiver reads from a PBU: the sequence number copied, A and P
   set, the lifetime in 4-second units (its low 16 bits), then exactly the
   NAI (subtype 1, the identifier verbatim), Handoff and ATT options in that
   order; the message goes to the binding's address.
   */
  lemma PbuOnWire(info: BindingInfo)
    requires Encodable(info)
    ensures PbuSender(info).endpoint == info.address
    ensures MobilityHeader.Parse(Image(PbuSender(info).message))
         == Some(Message(PbuBody(info.sequence, true, true, Low16(info.lifetime / LifetimeUnitMs) as nat),
                         [Nai(NaiSubtype, info.id), Handoff(info.handoff), Att(info.linkType)],
                         PbuSender(info).message.length))
  {
    ParseImage(PbuSender(info).message);
  }

  /**
   What a receiver reads from a PBA: the status and sequence number copied,
   P set (and no A bit, the PBA has none), the lifetime in 4-second units,
   then the NAI, Handoff and ATT options in that order.
   */
  lemma PbaOnWire(info: BindingInfo)
    requires Encodable(info)
    ensures PbaSender(info).endpoint == info.address
    ensures MobilityHeader.Parse(Image(PbaSender(info).message))
         == Some(Message(PbaBody(info.status, true, info.sequence, Low16(info.lifetime / LifetimeUnitMs) as nat),
                         [Nai(NaiSubtype, info.id), Handoff(info.handoff), Att(info.linkType)],
                         PbaSender(info).message.length))
  {
    ParseImage(PbaSender(info).message);
  }

  /**
   Both senders carry the lifetime as whole 4-second units, rounded down:
   the field times 4000 ms is at most the given lifetime and the next unit
   exceeds it; a zero lifetime gives a zero field.
   */
  lemma LifetimeUnits(info: BindingInfo)
    requires Encodable(info)
    ensures var units := PbuSender(info).message.body.lifetime;
      && units == PbaSender(info).message.body.lifetime
      && units * LifetimeUnitMs <= info.lifetime < (units + 1) * LifetimeUnitMs
      && (info.lifetime == 0 ==> units == 0)
  {
  }

  /**
   The length is the header plus the three options (fixed octets plus the
   identifier) rounded up to a multiple of 8: never shorter than the
   content, less than 8 octets longer, and the least such multiple.
   */
  lemma {:induction false} LengthAligned(info: BindingInfo, aligned: nat)
    requires Encodable(info)
    ensures var m := PbuSender(info).message;
      && m.length == PbaSender(info).message.length
      && Unpadded(m) == FixedContentSize + |info.id|
      && m.length % 8 == 0
      && Unpadded(m) <= m.length < Unpadded(m) + 8
      && (aligned % 8 == 0 && Unpadded(m) <= aligned ==> m.length <= aligned)
  {
    var m := PbuSender(info).message;
    AlignTo8IsLeast(Unpadded(m), if aligned % 8 == 0 && Unpadded(m) <= aligned then aligned else AlignTo8(Unpadded(m)));
  }

  /**
   In the octets of either message the NAI option starts right after the
   12-octet header, the Handoff option where the NAI ends and the ATT option
   where the Handoff ends; each holds its value, the identifier is copied
   verbatim with no terminator, and the padding up to the length is zero.
   */
  lemma {:induction false} OptionLayout(info: BindingInfo, body: Body)
    requires Encodable(info)
    ensures var b := Image(BindingMessage(info, body));
      var n := |info.id|;
      && b[MessageHeaderSize..IdOffset] == [NaiType, (1 + n) as uint8, NaiSubtype]
      && b[IdOffset..IdOffset + n] == info.id
      && b[IdOffset + n..IdOffset + n + HandoffSize] == [HandoffType, 2, 0, info.handoff]
      && b[IdOffset + n + HandoffSize..FixedContentSize + n] == [AttType, 2, 0, info.linkType]
      && AllZero(b[FixedContentSize + n..])
  {
    var m := BindingMessage(info, body);
    ImageParts(m);
    OptionsLayout(info);
    PlacedOptions(Image(m), EncodeAll(m.options), info);
  }

  /** The option octets placed right after the header in b, followed by zeros. */
  lemma PlacedOptions(b: Bytes, opts: Bytes, info: BindingInfo)
    requires Encodable(info)
    requires |opts| == FixedOptionsSize + |info.id| && MessageHeaderSize + |opts| <= |b|
    requires b[MessageHeaderSize..MessageHeaderSize + |opts|] == opts
    requires AllZero(b[MessageHeaderSize + |opts|..])
    requires var n := |info.id|;
      && opts[0..NaiFixedSize] == [NaiType, (1 + n) as uint8, NaiSubtype]
      && opts[NaiFixedSize..NaiFixedSize + n] == info.id
      && opts[NaiFixedSize + n..NaiFixedSize + n + HandoffSize] == [HandoffType, 2, 0, info.handoff]
      && opts[NaiFixedSize + n + HandoffSize..FixedOptionsSize + n] == [AttType, 2, 0, info.linkType]
    ensures var n := |info.id|;
      && b[MessageHeaderSize..IdOffset] == [NaiType, (1 + n) as uint8, NaiSubtype]
      && b[IdOffset..IdOffset + n] == info.id
      && b[IdOffset + n..IdOffset + n + HandoffSize] == [HandoffType, 2, 0, info.handoff]
      && b[IdOffset + n + HandoffSize..FixedContentSize + n] == [AttType, 2, 0, info.linkType]
      && AllZero(b[FixedContentSize + n..])
  {
    var n := |info.id|;
    SliceOfSlice(b, opts, 12, 0, 3);
    SliceOfSlice(b, opts, 12, 3, 3 + n);
    SliceOfSlice(b, opts, 12, 3 + n, 7 + n);
    SliceOfSlice(b, opts, 12, 7 + n, 11 + n);
  }

  lemma OptionsLayout(info: BindingInfo)
    requires Encodable(info)
    ensures var opts, n := EncodeAll(BindingOptions(info)), |info.id|;
      && |opts| == FixedOptionsSize + n
      && opts[0..NaiFixedSize] == [NaiType, (1 + n) as uint8, NaiSubtype]
      && opts[NaiFixedSize..NaiFixedSize + n] == info.id
      && opts[NaiFixedSize + n..NaiFixedSize + n + HandoffSize] == [HandoffType, 2, 0, info.handoff]
      && opts[NaiFixedSize + n + HandoffSize..FixedOptionsSize + n] == [AttType, 2, 0, info.linkType]
  {
    BindingOptionsEncoding(info);
    var n := |info.id|;
    var head := [NaiType, (1 + n) as uint8, NaiSubtype];
    var hof := [HandoffType, 2, 0, info.handoff];
    var att := [AttType, 2, 0, info.linkType];
    var opts := EncodeAll(BindingOptions(info));
    assert opts == head + info.id + hof + att;
  }

  /** A worked example: "mn1", 16000 ms, gives lifetime field 4 and length 32. */
  lemma ExamplePbu()
    ensures var info := BindingInfo(Address(Zeros(16), 0), 5, 16000, [0x6d, 0x6e, 0x31], 0, 1, 0);
      var m := PbuSender(info).message;
      && m.body.lifetime == 4
      && Unpadded(m) == 26
      && m.length == 32
  {
    var info := BindingInfo(Address(Zeros(16), 0), 5, 16000, [0x6d, 0x6e, 0x31], 0, 1, 0);
    BindingOptionsEncoding(info);
  }

  /**
   Places an option at the running offset of a buffer whose tail is still
   zero, and advances the offset by the option's size.
   */
  method PutOption(buffer: Bytes, ghost prefix: Bytes, len: nat, o: MhOption) returns (next: Bytes, len': nat)
    requires Valid(o)
    requires |prefix| == len && len + Size(o) <= |buffer|
    requires buffer == prefix + Zeros(|buffer| - len)
    ensures len' == len + Size(o)
    ensures next == (prefix + Encode(o)) + Zeros(|buffer| - len')
  {
    WriteOverZeros(prefix, Encode(o), |buffer| - len);
    next := WriteAt(buffer, len, Encode(o));
    len' := len + Size(o);
  }

  /** Appends the NAI, Handoff and ATT options after `prefix`, in that order. */
  method PutBindingOptions(buffer: Bytes, ghost prefix: Bytes, len: nat, info: BindingInfo)
    returns (next: Bytes, len': nat)
    requires Encodable(info)
    requires |prefix| == len && len + FixedOptionsSize + |info.id| <= |buffer|
    requires buffer == prefix + Zeros(|buffer| - len)
    ensures len' == len + FixedOptionsSize + |info.id| == len + TotalSize(BindingOptions(info))
    ensures next == (prefix + EncodeAll(BindingOptions(info))) + Zeros(|buffer| - len')
  {
    BindingOptionsEncoding(info);
    var nai, hof, att := Nai(NaiSubtype, info.id), Handoff(info.handoff), Att(info.linkType);
    next, len' := PutOption(buffer, prefix, len, nai);
    ghost var p := prefix + Encode(nai);
    next, len' := PutOption(next, p, len', hof);
    p := p + Encode(hof);
    next, len' := PutOption(next, p, len', att);
    assert p + Encode(att) == prefix + EncodeAll(BindingOptions(info));
  }

  /** Writing the six common octets last over the zero head gives the image followed by zeros. */
  lemma HeaderLast(common: Bytes, data: Bytes, opts: Bytes, len: nat, length: nat, capacity: nat)
    requires |common| == 6 && |data| == 6 && len == 12 + |opts| && len <= length <= capacity
    ensures var buffer := WriteAt(((Zeros(6) + data) + opts) + Zeros(capacity - len), 0, common);
      && buffer[..length] == common + data + opts + Zeros(length - len)
      && buffer[length..] == Zeros(capacity - length)
  {
    assert ((Zeros(6) + data) + opts) + Zeros(capacity - len) == Zeros(6) + ((data + opts) + Zeros(capacity - len));
    WriteHead(common, Zeros(6), (data + opts) + Zeros(capacity - len));
    ZerosSplit(length - len, capacity - length);
    var buffer := WriteAt(((Zeros(6) + data) + opts) + Zeros(capacity - len), 0, common);
    assert buffer == (common + data + opts + Zeros(length - len)) + Zeros(capacity - length);
  }

  /** The zero-filled buffer with the message data written at offset 6. */
  lemma DataFirst(data: Bytes, capacity: nat)
    requires |data| == 6 && 12 <= capacity
    ensures WriteAt(Zeros(capacity), 6, data) == (Zeros(6) + data) + Zeros(capacity - 12)
  {
    ZerosSplit(6, capacity - 6);
    WriteOverZeros(Zeros(6), data, capacity - 6);
  }

  /** The octets of a binding message, part by part. */
  lemma BindingImage(info: BindingInfo, body: Body)
    requires Encodable(info)
    ensures var m := BindingMessage(info, body);
      Image(m) == CommonBytes(MhType(body), m.length) + BodyBytes(body)
                  + EncodeAll(BindingOptions(info)) + Zeros(m.length - (FixedContentSize + |info.id|))
  {
  }

  /**
   The in-place construction both constructors share, step by step as the
   source performs it, into a zero-filled buffer of `capacity` octets.
   */
  method BuildInPlace(info: BindingInfo, body: Body, capacity: nat) returns (buffer: Bytes, length: nat)
    requires Encodable(info)
    requires BindingMessage(info, body).length <= capacity
    ensures |buffer| == capacity
    ensures length == BindingMessage(info, body).length
    ensures buffer[..length] == Image(BindingMessage(info, body))
    ensures AllZero(buffer[length..])
  {
    ghost var m := BindingMessage(info, body);
    ghost var opts := EncodeAll(BindingOptions(info));
    var data := BodyBytes(body);
    buffer := Zeros(capacity);
    DataFirst(data, capacity);
    buffer := WriteAt(buffer, 6, data);

    var len;
    buffer, len := PutBindingOptions(buffer, Zeros(6) + data, MessageHeaderSize, info);
    assert len == Unpadded(m) == 12 + |opts|;

    length := AlignTo8(len);
    assert length == m.length;
    var common := CommonBytes(MhType(body), length);
    HeaderLast(common, data, opts, len, length, capacity);
    buffer := WriteAt(buffer, 0, common);
    BindingImage(info, body);
  }

  /**
   `pbu_sender` in buffer form: the first `length` octets of the buffer are
   the PBU, every octet after them is zero.
   */
  method BuildPbu(info: BindingInfo, capacity: nat) returns (endpoint: Address, buffer: Bytes, length: nat)
    requires Encodable(info)
    requires PbuSender(info).message.length <= capacity
    ensures endpoint == info.address
    ensures |buffer| == capacity
    ensures length == PbuSender(info).message.length
    ensures buffer[..length] == Image(PbuSender(info).message)
    ensures AllZero(buffer[length..])
  {
    endpoint := info.address;
    buffer, length := BuildInPlace(info, PbuBody(info.sequence, true, true, info.lifetime / LifetimeUnitMs), capacity);
  }

  /** `pba_sender` in buffer form. */
  method BuildPba(info: BindingInfo, capacity: nat) returns (endpoint: Address, buffer: Bytes, length: nat)
    requires Encodable(info)
    requires PbaSender(info).message.length <= capacity
    ensures endpoint == info.address
    ensures |buffer| == capacity
    ensures length == PbaSender(info).message.length
    ensures buffer[..length] == Image(PbaSender(info).message)
    ensures AllZero(buffer[length..])
  {
    endpoint := info.address;
    buffer, length := BuildInPlace(info, PbaBody(info.status, true, info.sequence, info.lifetime / LifetimeUnitMs), capacity);
  }
}
