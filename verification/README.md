# Proxy Mobile IPv6 message builders, tunnel parameters and route codes

A Dafny model of four pieces of the ODiMM Proxy Mobile IPv6 daemon:

- **Mobility message senders** (`lib/opmip/pmip/mp_sender.cpp`). `pbu_sender` and
  `pba_sender` build a Proxy Binding Update or a Proxy Binding Acknowledgement from a
  `proxy_binding_info`. Each one:
  - zero-fills its buffer and writes the message data;
  - converts the lifetime from milliseconds into 4-second units;
  - appends the NAI, Handoff Indicator and Access Technology Type options at a running
    offset;
  - rounds the running length up to a multiple of 8;
  - writes the MH Type and Header Len fields last.
- **Router Advertisement sender** (`lib/opmip/pmip/icmp_sender.cpp`). `icmp_ra_sender`
  builds a Router Advertisement. It sets an infinite router lifetime, then appends a Source
  Link-Layer Address option, an MTU option and one Prefix Information option per prefix.
  Each prefix option has L and A set, a valid lifetime of 7200 s and a preferred lifetime of
  1800 s. The length is the plain sum of the parts, with no rounding.
- **IPv6 tunnel service, inline part** (`inc/opmip/sys/ip6_tunnel_service.hpp`):
  - the `parameters` record with its setters and getters;
  - the bounded `strncpy` copy of the interface name;
  - the tunnel flag bits and the default values;
  - `implementation_type` and the two `delete_on_close` overloads.
- **rtnetlink route descriptor** (`inc/opmip/sys/rtnetlink/route.hpp`). The code tables
  are message types, tables, protocols, scopes, route types, flags and attribute types.
  Each becomes a datatype with its code and a decoder. The all-zero default route is
  modelled too.

The header and option classes are not part of this model: `ip::mproto::pbu`/`pba`/`option`,
`ip::icmp::router_advertisement` and `ip::opt_*`. Their octet layouts follow the standards
those classes implement:
- the Mobility Header: section 6.1.1 of RFC 6275;
- PBU and PBA: sections 6.1.7 and 6.1.8 of RFC 6275, with the P bit from section 8.1 of
  RFC 5213;
- options: section 6.2 of RFC 6275;
- NAI option: section 3 of RFC 4283;
- Handoff Indicator and Access Technology Type options: sections 8.4 and 8.5 of RFC 5213;
- Router Advertisement and its options: sections 4.2 and 4.6 of RFC 4861.

Each builder exists in two forms:
- a pure function from its inputs to a message value, whose octet image is defined by
  `Image`;
- a method that performs the source's in-place steps on a buffer of `capacity` octets.

The method is proved to leave exactly `Image` in the first `length` octets and zeros after
them. A parser for each format is proved to read the image back. This gives a partner
property for every builder: what a receiver reads from the message.

Modules: `Octets` (integers, byte strings, buffer primitives), `Wrappers` (`Option`), `Ipv6`
(addresses and prefixes), `MobilityOptions`, `MobilityHeader`, `MpSender`, `IcmpOptions`,
`IcmpSender`, `Ip6TunnelService`, `Route`.

## Model

| member | source | states |
|---|---|---|
| MpSender.PbuSender | lib/opmip/pmip/mp_sender.cpp:24-71 | The PBU goes to the binding's address. It copies the sequence number, sets A and P, and carries the lifetime as whole 4-second units (units × 4000 ≤ ms < (units + 1) × 4000). It holds exactly the NAI (subtype 1, the identifier), Handoff and ATT options in that order, and is well formed with length align8(23 + |id|). |
| MpSender.PbaSender | lib/opmip/pmip/mp_sender.cpp:74-121 | The PBA goes to the binding's address. It copies the status and sequence number, sets P, and carries the lifetime as whole 4-second units. It holds the NAI, Handoff and ATT options in that order, and is well formed with length align8(23 + |id|). |
| MpSender.PbuOnWire | lib/opmip/pmip/mp_sender.cpp:24-71 | A receiver reads the PBU back with the sequence number copied, A and P set, lifetime = ms / 4000 (its low 16 bits), then exactly the NAI (subtype 1, identifier verbatim), Handoff and ATT options in that order. The message goes to the binding's address. |
| MpSender.PbaOnWire | lib/opmip/pmip/mp_sender.cpp:74-121 | A receiver reads the PBA back with the status and sequence copied, P set, the lifetime in 4-second units, then the NAI, Handoff and ATT options in that order. |
| MpSender.BindingMessage | lib/opmip/pmip/mp_sender.cpp:31-69 | The built message is well formed. Its content is 12 header octets plus 11 option octets plus the identifier. Its length is that content rounded up to a multiple of 8. |
| MpSender.LifetimeUnits | lib/opmip/pmip/mp_sender.cpp:36 | Both senders carry the lifetime as whole 4-second units rounded down. units × 4000 ≤ ms < (units + 1) × 4000, and 0 ms gives 0. |
| MpSender.LengthAligned | lib/opmip/pmip/mp_sender.cpp:69 | PBU and PBA lengths agree. The length is a multiple of 8, at least the content, less than 8 beyond it, and no larger than any multiple of 8 that holds the content. |
| MpSender.OptionLayout | lib/opmip/pmip/mp_sender.cpp:41-67 | In the octets, the NAI option starts at offset 12 with Length 1 + |id| and subtype 1, followed by the identifier with no terminator. Handoff starts where NAI ends and ATT where Handoff ends, each holding its value. Every padding octet is zero. |
| MpSender.BindingOptionsEncoding | lib/opmip/pmip/mp_sender.cpp:43-67 | The three options take 11 + |id| octets and are laid out back to back in append order. |
| MpSender.ExamplePbu | lib/opmip/pmip/mp_sender.cpp:33-70 | Identifier "mn1" with 16000 ms gives lifetime field 4, content 26 octets and length 32. |
| MpSender.PutOption | lib/opmip/pmip/mp_sender.cpp:43-47 | Constructing an option at the running offset of a zero tail appends its encoding, keeps the rest zero, and advances the offset by `option::size`. |
| MpSender.PutBindingOptions | lib/opmip/pmip/mp_sender.cpp:41-67 | The three constructions append the three encodings in order and advance the offset by their total size. |
| MpSender.DataFirst | lib/opmip/pmip/mp_sender.cpp:27-36 | After the zero fill, writing the message data leaves six zero octets, the data, then zeros. |
| MpSender.HeaderLast | lib/opmip/pmip/mp_sender.cpp:69-70 | Writing the common header last over the zero head yields header, data, options and zero padding up to the length, and zeros after it. |
| MpSender.BuildInPlace | lib/opmip/pmip/mp_sender.cpp:27-70 | The source's in-place step sequence leaves exactly the message image in the first `length` octets and zeros in the rest of the buffer. |
| MpSender.BuildPbu | lib/opmip/pmip/mp_sender.cpp:24-71 | The PBU in buffer form: endpoint is the binding address, the buffer starts with the PBU image, and every later octet is zero. |
| MpSender.BuildPba | lib/opmip/pmip/mp_sender.cpp:74-121 | The PBA in buffer form, with the same guarantees. |
| MobilityOptions.Encode | lib/opmip/pmip/mp_sender.cpp:43-66 | An option encodes to `option::size` octets. Its type is neither Pad1 nor PadN, and its Length octet is its data length. |
| MobilityOptions.DecodeEncode | lib/opmip/pmip/mp_sender.cpp:43-66 | Decoding an encoded NAI, Handoff or ATT option gives the same option back. |
| MobilityOptions.EncodeAllConcat | lib/opmip/pmip/mp_sender.cpp:41-67 | Encoding two option lists one after the other gives the concatenation of their encodings. |
| MobilityOptions.OffsetStep | lib/opmip/pmip/mp_sender.cpp:47 | Each option starts exactly where the previous one ends (`len += option::size`). |
| MobilityOptions.Placement | lib/opmip/pmip/mp_sender.cpp:43-67 | Option i of an encoded list occupies exactly its own size at its running offset. |
| MobilityOptions.ParseZeros | lib/opmip/pmip/mp_sender.cpp:27 | Octets left zero by the fill read as Pad1 padding and hold no option. |
| MobilityOptions.ParseEncodeAll | lib/opmip/pmip/mp_sender.cpp:41-69 | Any valid option list followed by any zero padding parses back to the same list. |
| MobilityHeader.HeaderLen | lib/opmip/pmip/mp_sender.cpp:70 | Header Len counts 8-octet units beyond the first: (value + 1) × 8 = length. |
| MobilityHeader.PbuFlagsBits | lib/opmip/pmip/mp_sender.cpp:34-35 | The A and P bits of the PBU flag octet each read back as set. |
| MobilityHeader.ParseBodyBytes | lib/opmip/pmip/mp_sender.cpp:33-36 | The six data octets of a PBU or PBA read back to the same fields, with the lifetime reduced to 16 bits. |
| MobilityHeader.ImageParts | lib/opmip/pmip/mp_sender.cpp:29-70 | Common header at 0..6, message data at 6..12, options from 12 to the content end, zeros from there to the length. |
| MobilityHeader.ParseImage | lib/opmip/pmip/mp_sender.cpp:29-70 | Every well-formed message's octets parse back to the message, with the lifetime as the 16-bit field carries it. |
| Octets.Zeros | lib/opmip/pmip/mp_sender.cpp:27 | The fill gives n octets, all zero. |
| Octets.WriteAt | lib/opmip/pmip/mp_sender.cpp:43 | Constructing at an offset replaces exactly the octets it covers and keeps every other octet. |
| Octets.WriteOverZeros | lib/opmip/pmip/mp_sender.cpp:43-47 | Writing into the zero tail right after a prefix extends the prefix and leaves the tail zero. |
| Octets.AlignTo8 | lib/opmip/pmip/mp_sender.cpp:69 | `align_to<8>` gives a multiple of 8 in [n, n + 8). |
| Octets.AlignTo8IsLeast | lib/opmip/pmip/mp_sender.cpp:69 | No multiple of 8 at least n is smaller than `align_to<8>(n)`. |
| Octets.Low16 | lib/opmip/pmip/mp_sender.cpp:36 | The 16-bit Lifetime field keeps the value when it fits and otherwise wraps modulo 65536. |
| Octets.BE16RoundTrip | lib/opmip/pmip/mp_sender.cpp:33 | A 16-bit field in network order reads back as the same value. |
| Octets.BE32RoundTrip | lib/opmip/pmip/icmp_sender.cpp:53 | A 32-bit field in network order reads back as the same value. |
| IcmpSender.IcmpRaSender | lib/opmip/pmip/icmp_sender.cpp:27-72 | The advertisement goes to (destination, port 0) with an infinite router lifetime. It has 2 + |prefixes| options: SLLA(mac), then MTU(mtu), then option 2 + i is the prefix option of prefix i. Its length is 32 + 32 × prefixes. |
| IcmpSender.PrefixOption | lib/opmip/pmip/icmp_sender.cpp:59-67 | Each prefix option carries its prefix with L and A set, a valid lifetime of 7200 s and a preferred lifetime of 1800 s, and takes 32 octets. |
| IcmpSender.RaOnWire | lib/opmip/pmip/icmp_sender.cpp:27-72 | A receiver reads back an infinite router lifetime, then exactly SLLA(mac), MTU(mtu) and one Prefix Information option per prefix in list order. Each prefix option has L and A set and lifetimes 7200/1800. The destination is (address, port 0). |
| IcmpSender.RaLength | lib/opmip/pmip/icmp_sender.cpp:36-71 | The length is header + SLLA + MTU + prefix options, added with no rounding, which is 32 + 32 × prefixes. It equals the image length and is already a multiple of 8. |
| IcmpSender.RaLengthGrowth | lib/opmip/pmip/icmp_sender.cpp:59-69 | With no prefixes the length is header, SLLA and MTU. Each added prefix adds exactly one option size. |
| IcmpSender.HeaderBytes | lib/opmip/pmip/icmp_sender.cpp:35-38 | The Router Advertisement header is 16 octets. |
| IcmpSender.PrefixOptionsSize | lib/opmip/pmip/icmp_sender.cpp:59-69 | The prefix options take 32 octets per prefix. |
| IcmpSender.Snoc | lib/opmip/pmip/icmp_sender.cpp:68 | One more option appends its size and its octets. |
| IcmpSender.PutOption | lib/opmip/pmip/icmp_sender.cpp:43-46 | Constructing an option at the running offset of a zero tail appends its encoding, keeps the rest zero, and advances the offset by its size. |
| IcmpSender.PutPrefixes | lib/opmip/pmip/icmp_sender.cpp:58-68 | The prefix loop appends the prefix options' octets in list order at the running offset, advances it by 32 per prefix and keeps the tail zero. |
| IcmpSender.BuildRa | lib/opmip/pmip/icmp_sender.cpp:27-72 | The source's loop over the prefix list leaves exactly the advertisement image in the first `length` octets and zeros after it, with the endpoint (destination, 0). |
| IcmpOptions.Encode | lib/opmip/pmip/icmp_sender.cpp:43-66 | An option encodes to 8 × Length octets with a non-zero type. |
| IcmpOptions.Decode | lib/opmip/pmip/icmp_sender.cpp:43-66 | A decoded option has exactly the size of the octets it came from. |
| IcmpOptions.DecodeEncode | lib/opmip/pmip/icmp_sender.cpp:43-66 | SLLA, MTU and Prefix Information options decode back to themselves. |
| IcmpOptions.PrefixFlagsBits | lib/opmip/pmip/icmp_sender.cpp:62-63 | The L and A bits of the flag octet read back as set. |
| IcmpOptions.EncodeAllConcat | lib/opmip/pmip/icmp_sender.cpp:59-69 | Encoding two option lists one after the other gives the concatenation of their encodings. |
| IcmpOptions.TotalSizeMultipleOf8 | lib/opmip/pmip/icmp_sender.cpp:46-71 | Every option list encodes to a whole number of 8-octet units. |
| IcmpOptions.ParseEncodeAll | lib/opmip/pmip/icmp_sender.cpp:43-69 | Any option list encodes to octets that parse back to the same list. |
| Ipv6.BytesRoundTrip | inc/opmip/sys/ip6_tunnel_service.hpp:135-146 | Rebuilding an address from its 16 octets keeps the octets. It equals the original exactly when the original's scope id is 0. |
| Ip6TunnelService.TunnelFlagBits | inc/opmip/sys/ip6_tunnel_service.hpp:113-118 | Every tunnel flag is a single bit, and distinct flags share no bit. Setting or clearing one flag in any flag word leaves every other flag's bit as it was. |
| Ip6TunnelService.CStrLen | inc/opmip/sys/ip6_tunnel_service.hpp:128 | A C string's length is bounded by its array. Every octet before it is non-NUL and the octet at it is NUL. |
| Ip6TunnelService.StrNCopy | inc/opmip/sys/ip6_tunnel_service.hpp:128 | `strncpy` writes exactly n octets: the source's octets before its terminator, then NUL to the end. |
| Ip6TunnelService.NameCopy | inc/opmip/sys/ip6_tunnel_service.hpp:128 | A name shorter than 16 reads back as the same C string, NUL-padded. A longer name leaves its first 16 octets and no terminator. |
| Ip6TunnelService.Apply | inc/opmip/sys/ip6_tunnel_service.hpp:128-146 | After any setter, its getter returns the stored value (an address as its octets with scope 0), and every other getter returns what it did before. |
| Ip6TunnelService.AddressRoundTrip | inc/opmip/sys/ip6_tunnel_service.hpp:135-146 | A stored local or remote address reads back equal to the original exactly when the original has scope 0. |
| Ip6TunnelService.SettersCommute | inc/opmip/sys/ip6_tunnel_service.hpp:128-136 | Setters of different fields can be called in either order. |
| Ip6TunnelService.SetterOverrides | inc/opmip/sys/ip6_tunnel_service.hpp:128-136 | A second call of the same setter overrides the first. |
| Ip6TunnelService.SwapDeleteOnClose | inc/opmip/sys/ip6_tunnel_service.hpp:173-178 | `delete_on_close(impl, value)` returns the handle's previous flag. Afterwards the handle's flag is `value`, and its parameters and list node are as before. |
| Ip6TunnelService.DeleteOnClose | inc/opmip/sys/ip6_tunnel_service.hpp:180-183 | The const overload reads the flag the setting overload returns: swapping in the value it reports gives back that value and an unchanged handle. |
| Ip6TunnelService.SwapBack | inc/opmip/sys/ip6_tunnel_service.hpp:173-183 | Swapping the returned previous value back restores the handle. Swapping in the current value changes nothing. |
| Route.MessageTypeCodes | inc/opmip/sys/rtnetlink/route.hpp:30-38 | New, delete and get are exactly the codes of [24, 27), one code each, and decoding inverts the code. |
| Route.TableCodes | inc/opmip/sys/rtnetlink/route.hpp:40-47 | Each table has its own octet code (0, 252-255), and decoding inverts it. |
| Route.ProtocolCodes | inc/opmip/sys/rtnetlink/route.hpp:49-70 | Protocol codes are 0..12, one per protocol, and decoding inverts them. The kernel interprets only the codes below `proto_static`. |
| Route.ScopeCodes | inc/opmip/sys/rtnetlink/route.hpp:72-79 | Each scope has its own octet code (0, 200, 253-255), and decoding inverts it. |
| Route.RouteTypeCodes | inc/opmip/sys/rtnetlink/route.hpp:81-94 | Route-type codes are 0..11, one per type, and decoding inverts them. |
| Route.EncodeFlagsBit | inc/opmip/sys/rtnetlink/route.hpp:96-101 | A flag's bit is set in the OR of a flag set exactly when the flag is in the set. |
| Route.RouteFlagsRoundTrip | inc/opmip/sys/rtnetlink/route.hpp:96-101 | Any set of flags ORed together decodes back to the same set. Any flag word re-encodes to its bits 0x100-0x800 and nothing else. |
| Route.AttrTypeCodes | inc/opmip/sys/rtnetlink/route.hpp:103-114 | Attribute codes fill [1, 8), one per attribute, and decoding inverts them. |
| Route.DefaultRoute | inc/opmip/sys/rtnetlink/route.hpp:117-120 | The default route has family, lengths and tos 0. Its table, protocol and route type hold the unspecified codes, its scope the universe code, and its flags the encoding of no flags. |
| Route.DefaultRouteUnspecified | inc/opmip/sys/rtnetlink/route.hpp:117-120 | Every field of the default route is zero, the flags word included. Its table, protocol and route type decode as unspecified, its scope as universe, and its flags as none. |

## Left out

- Buffer overflow is not checked by the senders. They construct into a fixed buffer whose
  size is declared elsewhere and is not part of this model. The buffer methods therefore
  take `capacity` as a parameter and require the message to fit, as the code assumes. No
  bounds-error result is modelled, because the code has none.
- MpSender.Encodable: identifiers longer than 254 octets are excluded. For them the NAI
  option's one-octet Length field would wrap, and the option class that computes it is
  not part of this model.
- Lifetime field: the source passes `lifetime / 4000` to a 16-bit field. The model keeps
  the unbounded quotient in the message value and writes its low 16 bits (`Low16`) to the
  octets.
- Checksums: the Mobility Header and ICMPv6 checksums are left zero here. The kernel or a
  later stage computes them, and parsers do not check them.
- Header and option class layouts: these classes are not part of this model, so their
  layouts follow the RFC figures named above. Reserved octets are zero.
- Kernel-facing tunnel operations: `construct`, `destroy`, `open`, `close`, `add_address`,
  `get_index`, `get_enable`, `set_enable`, `get_device_id`, `get`, `add`, `remove`,
  `change` and `io_control` are declared in the header but defined elsewhere, and they
  need ioctl and netlink I/O. The ioctl request constants are left out for the same
  reason.
- Tunnel registry, mutexes and the netlink socket and sequence number are concurrency and
  I/O state of the service. `ListHook` only carries the node's links.
- `parameters()`, `clear()`, `operator!=` and `operator<<` are declared only, with their
  definitions outside this model. `data()` exposes raw memory and has no counterpart in a
  value model.
- The interface name is taken as the octets a `const char*` points at (`Bytes`, NUL = 0);
  no character encoding is modelled.
- `ip::address_v6` is modelled as 16 octets plus a scope id. `to_bytes` drops the scope
  id, and rebuilding gives scope 0.
- Sockets, endpoints beyond (address, port), and sending are left out. The senders only
  build the message.
- `app/opmip-mag/drivers/dummy.hpp` is a caller and is not modelled.
