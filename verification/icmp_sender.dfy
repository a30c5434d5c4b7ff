/**
 The Router Advertisement sender: an ICMPv6 Router Advertisement (section
 4.2 of RFC 4861) with an infinite router lifetime, then a Source
 Link-Layer Address option, an MTU option and one Prefix Information option
 per advertised prefix, in the order given. Its length is the plain sum of
 the header and the option sizes; unlike the Mobility Header senders there
 is no rounding step.

 The header class's layout is not part of this model; the octets below
 follow the RFC figure, with every field other than Type and Router
 Lifetime left as the zero fill leaves it.
 */
module IcmpSender {
  import opened Octets
  import opened Wrappers
  import opened Ipv6
  import opened IcmpOptions

  const RouterAdvertisementType: uint8 := 134

  /** `sizeof(router_advertisement)`. */
  const RaHeaderSize: nat := 16

  /** `lifetime(~0)`: the all-ones Router Lifetime. */
  const InfiniteLifetime: uint16 := 0xFFFF

  /** The lifetimes, in seconds, every advertised prefix carries. */
  const PrefixValidLifetime: uint32 := 7200
  const PrefixPreferredLifetime: uint32 := 1800

  /** The ICMP endpoint a message goes to: an address and port 0. */
  datatype Endpoint = Endpoint(address: Address, port: uint16)

  datatype RouterAdvertisement = RouterAdvertisement(routerLifetime: uint16, options: seq<NdOption>)

  /** A built advertisement, where it goes and its length in octets. */
  datatype RaSender = RaSender(endpoint: Endpoint, ra: RouterAdvertisement, length: nat)

  /**
   The Prefix Information option built for one list entry: on-link,
   usable for autonomous configuration, valid for 7200 s and preferred for
   1800 s, four units of 8 octets.
   */
  function PrefixOption(p: Prefix): (o: NdOption)
    ensures o.PrefixInfo? && o.prefix == p
    ensures o.onLink && o.autonomous
    ensures o.validLifetime == 7200 && o.preferredLifetime == 1800
    ensures Size(o) == 32
  {
    PrefixInfo(true, true, PrefixValidLifetime, PrefixPreferredLifetime, p)
  }

  function PrefixOptions(preflist: seq<Prefix>): (os: seq<NdOption>) {
    seq(|preflist|, i requires 0 <= i < |preflist| => PrefixOption(preflist[i]))
  }

  /**
   `icmp_ra_sender::icmp_ra_sender`: an advertisement to (destination, port
   0) with an infinite router lifetime, the SLLA and MTU options, then one
   prefix option per list entry in list order; its length is 32 octets plus
   32 per prefix.
   */
  function IcmpRaSender(mac: MacAddress, mtu: uint32, preflist: seq<Prefix>, destination: Address): (s: RaSender)
    ensures s.endpoint == Endpoint(destination, 0)
    ensures s.ra.routerLifetime == InfiniteLifetime
    ensures |s.ra.options| == 2 + |preflist|
    ensures s.ra.options[0] == SourceLinkLayer(mac) && s.ra.options[1] == Mtu(mtu)
    ensures forall i :: 0 <= i < |preflist| ==> s.ra.options[2 + i] == PrefixOption(preflist[i])
    ensures s.length == 32 + 32 * |preflist|
  {
    var head := [SourceLinkLayer(mac), Mtu(mtu)];
    var os := head + PrefixOptions(preflist);
    TotalSizeConcat(head, PrefixOptions(preflist));
    assert head[1..][1..] == [];
    PrefixOptionsSize(preflist);
    RaSender(Endpoint(destination, 0), RouterAdvertisement(InfiniteLifetime, os), RaHeaderSize + TotalSize(os))
  }

  /** The 16 header octets: Type, Code, Checksum, hop limit, flags, Router Lifetime, timers. */
  function HeaderBytes(routerLifetime: uint16): (b: Bytes)
    ensures |b| == RaHeaderSize
  {
    [RouterAdvertisementType, 0, 0, 0, 0, 0] + BE16(routerLifetime) + Zeros(8)
  }

  /** The first `length` octets of the sender's buffer. */
  function Image(ra: RouterAdvertisement): Bytes {
    HeaderBytes(ra.routerLifetime) + EncodeAll(ra.options)
  }

  /** A receiver's reading of a Router Advertisement; checksum and timers are not checked. */
  function Parse(b: Bytes): Option<RouterAdvertisement> {
    if |b| < RaHeaderSize || b[0] != RouterAdvertisementType || b[1] != 0 then None
    else
      var os :- IcmpOptions.Parse(b[RaHeaderSize..]);
      Some(RouterAdvertisement(FromBE16(b[6], b[7]), os))
  }

  lemma {:induction false} PrefixOptionsSize(preflist: seq<Prefix>)
    ensures TotalSize(PrefixOptions(preflist)) == 32 * |preflist|
    decreases |preflist|
  {
    if |preflist| > 0 {
      assert PrefixOptions(preflist)[1..] == PrefixOptions(preflist[1..]);
      PrefixOptionsSize(preflist[1..]);
    }
  }

  lemma PrefixOptionsAppend(preflist: seq<Prefix>, i: nat)
    requires i < |preflist|
    ensures PrefixOptions(preflist[..i + 1]) == PrefixOptions(preflist[..i]) + [PrefixOption(preflist[i])]
  {
  }

  lemma ConcatAssoc(a: Bytes, b: Bytes, c: Bytes)
    ensures (a + b) + c == a + (b + c)
  {
  }

  /**
   What a receiver reads: an infinite router lifetime, then exactly the
   source link-layer option holding `mac`, the MTU option holding `mtu`,
   and for each prefix, in list order, a Prefix Information option holding
   it with L and A set and lifetimes 7200 and 1800; the advertisement goes
   to (destination, port 0).
   */
  lemma RaOnWire(mac: MacAddress, mtu: uint32, preflist: seq<Prefix>, destination: Address)
    ensures var s := IcmpRaSender(mac, mtu, preflist, destination);
      s.endpoint == Endpoint(destination, 0)
    ensures var s := IcmpRaSender(mac, mtu, preflist, destination);
      Parse(Image(s.ra)).Some?
    ensures var s := IcmpRaSender(mac, mtu, preflist, destination);
      var r := Parse(Image(s.ra)).value;
      && r.routerLifetime == InfiniteLifetime
      && |r.options| == 2 + |preflist|
      && r.options[0] == SourceLinkLayer(mac)
      && r.options[1] == Mtu(mtu)
      && forall i :: 0 <= i < |preflist| ==>
           r.options[2 + i] == PrefixInfo(true, true, 7200, 1800, preflist[i])
  {
    var s := IcmpRaSender(mac, mtu, preflist, destination);
    var b := Image(s.ra);
    assert b[..RaHeaderSize] == HeaderBytes(InfiniteLifetime);
    assert b[RaHeaderSize..] == EncodeAll(s.ra.options);
    ParseEncodeAll(s.ra.options);
    BE16RoundTrip(InfiniteLifetime);
  }

  /**
   The length is the header plus the SLLA, MTU and prefix option sizes,
   added up with no rounding: 32 octets plus 32 per prefix. It is the
   length of the octets written, and it is already a multiple of 8 because
   every option is.
   */
  lemma RaLength(mac: MacAddress, mtu: uint32, preflist: seq<Prefix>, destination: Address)
    ensures var s := IcmpRaSender(mac, mtu, preflist, destination);
      && s.length == RaHeaderSize + Size(SourceLinkLayer(mac)) + Size(Mtu(mtu)) + TotalSize(PrefixOptions(preflist))
      && s.length == 32 + 32 * |preflist|
      && s.length == |Image(s.ra)|
      && AlignTo8(s.length) == s.length
  {
    var s := IcmpRaSender(mac, mtu, preflist, destination);
    var head := [SourceLinkLayer(mac), Mtu(mtu)];
    TotalSizeConcat(head, PrefixOptions(preflist));
    assert head[1..][1..] == [];
    PrefixOptionsSize(preflist);
    TotalSizeMultipleOf8(s.ra.options);
    AlignTo8OfAligned(s.length);
  }

  /** With no prefixes the advertisement is header, SLLA and MTU; each added prefix adds one option's size. */
  lemma RaLengthGrowth(mac: MacAddress, mtu: uint32, preflist: seq<Prefix>, p: Prefix, destination: Address)
    ensures IcmpRaSender(mac, mtu, [], destination).length == RaHeaderSize + Size(SourceLinkLayer(mac)) + Size(Mtu(mtu))
    ensures IcmpRaSender(mac, mtu, preflist + [p], destination).length
         == IcmpRaSender(mac, mtu, preflist, destination).length + Size(PrefixOption(p))
  {
    RaLength(mac, mtu, [], destination);
    RaLength(mac, mtu, preflist, destination);
    RaLength(mac, mtu, preflist + [p], destination);
  }

  /** One more option at the end of a list: its size and octets are appended. */
  lemma Snoc(done: seq<NdOption>, o: NdOption)
    ensures TotalSize(done + [o]) == TotalSize(done) + Size(o)
    ensures EncodeAll(done + [o]) == EncodeAll(done) + Encode(o)
  {
    TotalSizeConcat(done, [o]);
    EncodeAllConcat(done, [o]);
    assert [o][1..] == [];
  }

  /**
   Places an option at the running offset of a buffer whose tail is still
   zero, and advances the offset by the option's size.
   */
  method PutOption(buffer: Bytes, len: nat, o: NdOption) returns (next: Bytes, len': nat)
    requires len + Size(o) <= |buffer|
    requires AllZero(buffer[len..])
    ensures |next| == |buffer|
    ensures len' == len + Size(o)
    ensures next[..len'] == buffer[..len] + Encode(o)
    ensures AllZero(next[len'..])
  {
    next := WriteAt(buffer, len, Encode(o));
    len' := len + Size(o);
    assert next[len'..] == buffer[len'..];
  }

  /** The prefix options of one more entry: the octets of its option appended. */
  lemma NextPrefixOctets(preflist: seq<Prefix>, i: nat)
    requires i < |preflist|
    ensures EncodeAll(PrefixOptions(preflist[..i + 1]))
         == EncodeAll(PrefixOptions(preflist[..i])) + Encode(PrefixOption(preflist[i]))
  {
    PrefixOptionsAppend(preflist, i);
    Snoc(PrefixOptions(preflist[..i]), PrefixOption(preflist[i]));
  }

  /**
   The loop of `icmp_ra_sender`: one prefix option per entry, in list order,
   each at the running offset; the offset grows by 32 per entry.
   */
  method PutPrefixes(buffer: Bytes, ghost before: Bytes, len: nat, preflist: seq<Prefix>)
    returns (next: Bytes, len': nat)
    requires |before| == len && len + 32 * |preflist| <= |buffer|
    requires buffer[..len] == before && AllZero(buffer[len..])
    ensures |next| == |buffer|
    ensures len' == len + 32 * |preflist|
    ensures next[..len'] == before + EncodeAll(PrefixOptions(preflist))
    ensures AllZero(next[len'..])
  {
    next, len' := buffer, len;
    var i := 0;
    while i < |preflist|
      invariant 0 <= i <= |preflist|
      invariant |next| == |buffer|
      invariant len' == len + 32 * i
      invariant next[..len'] == before + EncodeAll(PrefixOptions(preflist[..i]))
      invariant AllZero(next[len'..])
    {
      ghost var done := EncodeAll(PrefixOptions(preflist[..i]));
      var pref := PrefixOption(preflist[i]);
      next, len' := PutOption(next, len', pref);
      NextPrefixOctets(preflist, i);
      ConcatAssoc(before, done, Encode(pref));
      i := i + 1;
    }
    assert preflist[..i] == preflist;
  }

  /** The option octets of an advertisement: SLLA, MTU, then the prefix options. */
  lemma RaOptionOctets(mac: MacAddress, mtu: uint32, preflist: seq<Prefix>)
    ensures EncodeAll([SourceLinkLayer(mac), Mtu(mtu)] + PrefixOptions(preflist))
         == Encode(SourceLinkLayer(mac)) + Encode(Mtu(mtu)) + EncodeAll(PrefixOptions(preflist))
  {
    var head := [SourceLinkLayer(mac), Mtu(mtu)];
    EncodeAllConcat(head, PrefixOptions(preflist));
    assert head[1..][1..] == [];
  }

  /**
   `icmp_ra_sender` in buffer form, step by step as the source performs it:
   zero fill, header with infinite lifetime, SLLA, MTU, then one prefix
   option per entry at the running offset. The first `length` octets are
   the advertisement and every later octet is zero.
   */
  /** The image of the advertisement in the order the sender writes it: header, the two fixed options, the prefixes. */
  lemma RaImageOctets(mac: MacAddress, mtu: uint32, preflist: seq<Prefix>, destination: Address)
    ensures Image(IcmpRaSender(mac, mtu, preflist, destination).ra)
         == HeaderBytes(InfiniteLifetime) + Encode(SourceLinkLayer(mac)) + Encode(Mtu(mtu))
            + EncodeAll(PrefixOptions(preflist))
  {
    var header := HeaderBytes(InfiniteLifetime);
    var a, b, c := Encode(SourceLinkLayer(mac)), Encode(Mtu(mtu)), EncodeAll(PrefixOptions(preflist));
    var ra := IcmpRaSender(mac, mtu, preflist, destination).ra;
    assert ra == RouterAdvertisement(InfiniteLifetime, [SourceLinkLayer(mac), Mtu(mtu)] + PrefixOptions(preflist));
    RaOptionOctets(mac, mtu, preflist);
    assert Image(ra) == header + (a + b + c);
    assert header + a + b + c == header + (a + b + c);
  }

  method BuildRa(mac: MacAddress, mtu: uint32, preflist: seq<Prefix>, destination: Address, capacity: nat)
    returns (endpoint: Endpoint, buffer: Bytes, length: nat)
    requires IcmpRaSender(mac, mtu, preflist, destination).length <= capacity
    ensures endpoint == Endpoint(destination, 0)
    ensures |buffer| == capacity
    ensures length == IcmpRaSender(mac, mtu, preflist, destination).length
    ensures buffer[..length] == Image(IcmpRaSender(mac, mtu, preflist, destination).ra)
    ensures AllZero(buffer[length..])
  {
    endpoint := Endpoint(destination, 0);
    var header := HeaderBytes(InfiniteLifetime);
    buffer := Zeros(capacity);
    buffer := WriteAt(buffer, 0, header);
    var len := RaHeaderSize;
    assert buffer[len..] == Zeros(capacity - len);

    var sll, omtu := SourceLinkLayer(mac), Mtu(mtu);
    buffer, len := PutOption(buffer, len, sll);
    buffer, len := PutOption(buffer, len, omtu);
    buffer, length := PutPrefixes(buffer, header + Encode(sll) + Encode(omtu), len, preflist);
    RaImageOctets(mac, mtu, preflist, destination);
  }
}
