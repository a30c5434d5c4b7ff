/**
 The Neighbor Discovery options a Router Advertisement carries (section 4.6
 of RFC 4861): Source Link-Layer Address (4.6.1), Prefix Information (4.6.2)
 and MTU (4.6.4). Each option's Length octet counts units of 8 octets, so
 every option size is a multiple of 8.
 */
module IcmpOptions {
  import opened Octets
  import opened Wrappers
  import opened Ipv6

  const SourceLinkLayerType: uint8 := 1
  const PrefixInfoType: uint8 := 3
  const MtuType: uint8 := 5

  /** L (on-link) and A (autonomous address configuration) in the Prefix Information flag octet. */
  const OnLinkBit: uint8 := 0x80
  const AutonomousBit: uint8 := 0x40

  datatype NdOption =
    | SourceLinkLayer(mac: MacAddress)
    | Mtu(mtu: uint32)
    | PrefixInfo(onLink: bool, autonomous: bool, validLifetime: uint32, preferredLifetime: uint32, prefix: Prefix)

  /** The option's Length octet, in units of 8 octets. */
  function Units(o: NdOption): uint8 {
    match o
    case SourceLinkLayer(_) => 1
    case Mtu(_) => 1
    case PrefixInfo(_, _, _, _, _) => 4
  }

  /** `option::size`: the whole option in octets. */
  function Size(o: NdOption): nat {
    8 * Units(o) as nat
  }

  function PrefixFlags(onLink: bool, autonomous: bool): uint8 {
    (if onLink then OnLinkBit else 0) + (if autonomous then AutonomousBit else 0)
  }

  /** The option's octets as section 4.6 of RFC 4861 lays them out; reserved octets are zero. */
  function Encode(o: NdOption): (b: Bytes)
    ensures |b| == Size(o)
    ensures b[0] != 0 && b[1] == Units(o)
  {
    match o
    case SourceLinkLayer(mac) => [SourceLinkLayerType, 1] + mac
    case Mtu(mtu) => [MtuType, 1, 0, 0] + BE32(mtu)
    case PrefixInfo(l, a, valid, preferred, p) =>
      [PrefixInfoType, 4, p.length, PrefixFlags(l, a)] + BE32(valid) + BE32(preferred)
        + Zeros(4) + p.octets
  }

  /** Reads one option from exactly its octets. */
  function Decode(b: Bytes): (r: Option<NdOption>)
    ensures r.Some? ==> Size(r.value) == |b|
  {
    if |b| < 2 || |b| != 8 * b[1] as int then None
    else if b[0] == SourceLinkLayerType && b[1] == 1 then Some(SourceLinkLayer(b[2..8]))
    else if b[0] == MtuType && b[1] == 1 then Some(Mtu(FromBE32(b[4..8])))
    else if b[0] == PrefixInfoType && b[1] == 4 then
      Some(PrefixInfo(HasBit(b[3], OnLinkBit), HasBit(b[3], AutonomousBit),
                      FromBE32(b[4..8]), FromBE32(b[8..12]), Prefix(b[16..32], b[2])))
    else None
  }

  lemma PrefixFlagsBits(onLink: bool, autonomous: bool)
    ensures HasBit(PrefixFlags(onLink, autonomous), OnLinkBit) == onLink
    ensures HasBit(PrefixFlags(onLink, autonomous), AutonomousBit) == autonomous
  {
    if onLink && autonomous {
      assert PrefixFlags(onLink, autonomous) == 0xC0;
    } else if onLink {
      assert PrefixFlags(onLink, autonomous) == 0x80;
    } else if autonomous {
      assert PrefixFlags(onLink, autonomous) == 0x40;
    } else {
      assert PrefixFlags(onLink, autonomous) == 0;
    }
  }

  lemma DecodeEncode(o: NdOption)
    ensures Decode(Encode(o)) == Some(o)
  {
    var b := Encode(o);
    match o
    case SourceLinkLayer(mac) =>
      assert b[2..8] == mac;
    case Mtu(mtu) =>
      assert b[4..8] == BE32(mtu);
      BE32RoundTrip(mtu);
    case PrefixInfo(l, a, valid, preferred, p) =>
      assert b[3] == PrefixFlags(l, a);
      assert b[4..8] == BE32(valid);
      assert b[8..12] == BE32(preferred);
      assert b[16..32] == p.octets;
      PrefixFlagsBits(l, a);
      BE32RoundTrip(valid);
      BE32RoundTrip(preferred);
  }

  /** The sum of the sizes of a list of options. */
  function TotalSize(os: seq<NdOption>): nat {
    if |os| == 0 then 0 else Size(os[0]) + TotalSize(os[1..])
  }

  /** The options laid out back to back in list order. */
  function EncodeAll(os: seq<NdOption>): (b: Bytes)
    ensures |b| == TotalSize(os)
  {
    if |os| == 0 then [] else Encode(os[0]) + EncodeAll(os[1..])
  }

  lemma {:induction false} TotalSizeConcat(a: seq<NdOption>, b: seq<NdOption>)
    ensures TotalSize(a + b) == TotalSize(a) + TotalSize(b)
    decreases |a|
  {
    if |a| == 0 {
      assert a + b == b;
    } else {
      assert (a + b)[1..] == a[1..] + b;
      TotalSizeConcat(a[1..], b);
    }
  }

  lemma {:induction false} EncodeAllConcat(a: seq<NdOption>, b: seq<NdOption>)
    ensures EncodeAll(a + b) == EncodeAll(a) + EncodeAll(b)
    decreases |a|
  {
    if |a| == 0 {
      assert a + b == b;
    } else {
      assert (a + b)[1..] == a[1..] + b;
      EncodeAllConcat(a[1..], b);
    }
  }

  /** Every option list encodes to a whole number of 8-octet units. */
  lemma {:induction false} TotalSizeMultipleOf8(os: seq<NdOption>)
    ensures TotalSize(os) % 8 == 0
    decreases |os|
  {
    if |os| > 0 {
      TotalSizeMultipleOf8(os[1..]);
    }
  }

  /** Parses a run of options; a zero Length octet or a truncated option is malformed. */
  function Parse(b: Bytes): Option<seq<NdOption>>
    decreases |b|
  {
    if |b| == 0 then Some([])
    else if |b| < 2 || b[1] == 0 || |b| < 8 * b[1] as int then None
    else
      var o :- Decode(b[..8 * b[1] as int]);
      var rest :- Parse(b[8 * b[1] as int..]);
      Some([o] + rest)
  }

  /** Encoding a list of options parses back to the same list. */
  lemma {:induction false} ParseEncodeAll(os: seq<NdOption>)
    ensures Parse(EncodeAll(os)) == Some(os)
    decreases |os|
  {
    if |os| > 0 {
      var head := Encode(os[0]);
      var tail := EncodeAll(os[1..]);
      var b := EncodeAll(os);
      assert b == head + tail;
      assert b[1] == head[1] == Units(os[0]);
      assert 8 * b[1] as int == |head|;
      assert b[..|head|] == head;
      assert b[|head|..] == tail;
      DecodeEncode(os[0]);
      ParseEncodeAll(os[1..]);
      assert [os[0]] + os[1..] == os;
    }
  }
}
