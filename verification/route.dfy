/**
 The rtnetlink route descriptor: a passive record describing one kernel
 routing-table entry, and the code tables its fields and the route requests
 use (message types, tables, protocols, scopes, route types, flag bits and
 attribute types). Each table is an enumeration with its code and a
 decoder back from codes.
 */
module Route {
  import opened Octets
  import opened Wrappers

  // Message types: new, delete and get route, the half-open range [24, 27).

  datatype MessageType = NewRoute | DelRoute | GetRoute

  const MessageTypeBegin: nat := 24
  const MessageTypeEnd: nat := 27

  function MessageTypeCode(m: MessageType): nat {
    match m
    case NewRoute => 24
    case DelRoute => 25
    case GetRoute => 26
  }

  function MessageTypeOf(c: nat): Option<MessageType> {
    if c == 24 then Some(NewRoute)
    else if c == 25 then Some(DelRoute)
    else if c == 26 then Some(GetRoute)
    else None
  }

  /** The message types are exactly the codes of [24, 27), one code each. */
  lemma MessageTypeCodes(m: MessageType, c: nat)
    ensures MessageTypeBegin <= MessageTypeCode(m) < MessageTypeEnd
    ensures MessageTypeOf(MessageTypeCode(m)) == Some(m)
    ensures MessageTypeOf(c).Some? <==> MessageTypeBegin <= c < MessageTypeEnd
    ensures MessageTypeOf(c) == Some(m) ==> MessageTypeCode(m) == c
  {
  }

  // Routing tables.

  datatype Table = TableUnspecified | TableCompat | TableDefault | TableMain | TableLocal

  function TableCode(t: Table): uint8 {
    match t
    case TableUnspecified => 0
    case TableCompat => 252
    case TableDefault => 253
    case TableMain => 254
    case TableLocal => 255
  }

  function TableOf(c: uint8): Option<Table> {
    if c == 0 then Some(TableUnspecified)
    else if c == 252 then Some(TableCompat)
    else if c == 253 then Some(TableDefault)
    else if c == 254 then Some(TableMain)
    else if c == 255 then Some(TableLocal)
    else None
  }

  /** Each table has its own one-octet code, and decoding the code gives the table back. */
  lemma TableCodes(t: Table, u: Table, c: uint8)
    ensures TableOf(TableCode(t)) == Some(t)
    ensures TableOf(c) == Some(t) ==> TableCode(t) == c
    ensures t != u ==> TableCode(t) != TableCode(u)
  {
  }

  // Routing protocols. Codes from `proto_static` up are not interpreted by
  // the kernel, only passed from user space and back.

  datatype Protocol =
    | ProtoUnspecified   // installed by ICMP redirects
    | ProtoKernel        // installed by the kernel
    | ProtoBoot          // installed during boot
    | ProtoStatic        // installed by the administrator
    | ProtoGated
    | ProtoRa            // router advertisements
    | ProtoMrt
    | ProtoZebra
    | ProtoBird
    | ProtoDnrouted
    | ProtoXorp
    | ProtoNtk
    | ProtoDhcp

  function ProtocolCode(p: Protocol): uint8 {
    match p
    case ProtoUnspecified => 0
    case ProtoKernel => 1
    case ProtoBoot => 2
    case ProtoStatic => 3
    case ProtoGated => 4
    case ProtoRa => 5
    case ProtoMrt => 6
    case ProtoZebra => 7
    case ProtoBird => 8
    case ProtoDnrouted => 9
    case ProtoXorp => 10
    case ProtoNtk => 11
    case ProtoDhcp => 12
  }

  const Protocols: seq<Protocol> := [
    ProtoUnspecified, ProtoKernel, ProtoBoot, ProtoStatic, ProtoGated, ProtoRa, ProtoMrt,
    ProtoZebra, ProtoBird, ProtoDnrouted, ProtoXorp, ProtoNtk, ProtoDhcp]

  function ProtocolOf(c: uint8): Option<Protocol> {
    if c as int < |Protocols| then Some(Protocols[c]) else None
  }

  /** Whether the kernel interprets a protocol code; from `proto_static` up it passes it through. */
  predicate KernelInterprets(c: uint8) {
    c < ProtocolCode(ProtoStatic)
  }

  /**
   The protocol codes are consecutive from 0 to 12, each protocol with its
   own; the kernel interprets only the unspecified, kernel and boot codes.
   */
  lemma ProtocolCodes(p: Protocol, c: uint8)
    ensures ProtocolOf(ProtocolCode(p)) == Some(p)
    ensures ProtocolOf(c).Some? <==> c <= 12
    ensures ProtocolOf(c) == Some(p) ==> ProtocolCode(p) == c
    ensures KernelInterprets(ProtocolCode(p)) <==> p in {ProtoUnspecified, ProtoKernel, ProtoBoot}
  {
  }

  // Scopes: the distance to the destination.

  datatype Scope = ScopeUniverse | ScopeSite | ScopeLink | ScopeHost | ScopeNowhere

  function ScopeCode(s: Scope): uint8 {
    match s
    case ScopeUniverse => 0
    case ScopeSite => 200
    case ScopeLink => 253
    case ScopeHost => 254
    case ScopeNowhere => 255
  }

  function ScopeOf(c: uint8): Option<Scope> {
    if c == 0 then Some(ScopeUniverse)
    else if c == 200 then Some(ScopeSite)
    else if c == 253 then Some(ScopeLink)
    else if c == 254 then Some(ScopeHost)
    else if c == 255 then Some(ScopeNowhere)
    else None
  }

  /** Each scope has its own one-octet code, and decoding the code gives the scope back. */
  lemma ScopeCodes(s: Scope, t: Scope, c: uint8)
    ensures ScopeOf(ScopeCode(s)) == Some(s)
    ensures ScopeOf(c) == Some(s) ==> ScopeCode(s) == c
    ensures s != t ==> ScopeCode(s) != ScopeCode(t)
  {
  }

  // Route types.

  datatype RouteType =
    | TypeUnspecified
    | TypeUnicast       // gateway or direct route
    | TypeLocal         // accept locally
    | TypeBroadcast     // accept locally as broadcast, send as broadcast
    | TypeAnycast       // accept locally as broadcast, send as unicast
    | TypeMulticast
    | TypeBlackhole     // drop
    | TypeUnreachable
    | TypeProhibit      // administratively prohibited
    | TypeThrow         // continue lookup in another table
    | TypeNat           // translate this address
    | TypeXresolve      // use an external resolver

  const RouteTypes: seq<RouteType> := [
    TypeUnspecified, TypeUnicast, TypeLocal, TypeBroadcast, TypeAnycast, TypeMulticast,
    TypeBlackhole, TypeUnreachable, TypeProhibit, TypeThrow, TypeNat, TypeXresolve]

  function RouteTypeCode(t: RouteType): uint8 {
    match t
    case TypeUnspecified => 0
    case TypeUnicast => 1
    case TypeLocal => 2
    case TypeBroadcast => 3
    case TypeAnycast => 4
    case TypeMulticast => 5
    case TypeBlackhole => 6
    case TypeUnreachable => 7
    case TypeProhibit => 8
    case TypeThrow => 9
    case TypeNat => 10
    case TypeXresolve => 11
  }

  function RouteTypeOf(c: uint8): Option<RouteType> {
    if c as int < |RouteTypes| then Some(RouteTypes[c]) else None
  }

  /** The route-type codes are consecutive from 0 to 11, one per type. */
  lemma RouteTypeCodes(t: RouteType, c: uint8)
    ensures RouteTypeOf(RouteTypeCode(t)) == Some(t)
    ensures RouteTypeOf(c).Some? <==> c <= 11
    ensures RouteTypeOf(c) == Some(t) ==> RouteTypeCode(t) == c
  {
  }

  // Route flags: single bits of the 32-bit flags word.

  datatype RouteFlag = Notify | Cloned | Equalize | PrefixFlag

  function RouteFlagBit(f: RouteFlag): bv32 {
    match f
    case Notify => 0x100
    case Cloned => 0x200
    case Equalize => 0x400
    case PrefixFlag => 0x800
  }

  /** The OR of the bits of a set of flags. */
  function EncodeFlags(fs: set<RouteFlag>): bv32 {
    (if Notify in fs then 0x100 else 0) | (if Cloned in fs then 0x200 else 0)
      | (if Equalize in fs then 0x400 else 0) | (if PrefixFlag in fs then 0x800 else 0)
  }

  /** The flags whose bit is set in a flags word. */
  function DecodeFlags(w: bv32): set<RouteFlag> {
    (if w & 0x100 != 0 then {Notify} else {}) + (if w & 0x200 != 0 then {Cloned} else {})
      + (if w & 0x400 != 0 then {Equalize} else {}) + (if w & 0x800 != 0 then {PrefixFlag} else {})
  }

  /** A flag's bit is set in the encoding of a set exactly when the flag is in the set. */
  lemma EncodeFlagsBit(fs: set<RouteFlag>, f: RouteFlag)
    ensures EncodeFlags(fs) & RouteFlagBit(f) != 0 <==> f in fs
  {
    var a: bv32 := if Notify in fs then 0x100 else 0;
    var b: bv32 := if Cloned in fs then 0x200 else 0;
    var c: bv32 := if Equalize in fs then 0x400 else 0;
    var d: bv32 := if PrefixFlag in fs then 0x800 else 0;
    assert EncodeFlags(fs) == a | b | c | d;
    BitsDisjoint(a, b, c, d);
  }

  lemma BitsDisjoint(a: bv32, b: bv32, c: bv32, d: bv32)
    requires a == 0 || a == 0x100
    requires b == 0 || b == 0x200
    requires c == 0 || c == 0x400
    requires d == 0 || d == 0x800
    ensures (a | b | c | d) & 0x100 == a
    ensures (a | b | c | d) & 0x200 == b
    ensures (a | b | c | d) & 0x400 == c
    ensures (a | b | c | d) & 0x800 == d
  {
  }

  /**
   The four flags are distinct single bits, so every OR-combination of them
   decodes to exactly the flags combined, and a flags word re-encodes to its
   bits 0x100 to 0x800 and nothing else.
   */
  lemma RouteFlagsRoundTrip(fs: set<RouteFlag>, w: bv32)
    ensures DecodeFlags(EncodeFlags(fs)) == fs
    ensures EncodeFlags(DecodeFlags(w)) == w & 0xF00
  {
    EncodeFlagsBit(fs, Notify);
    EncodeFlagsBit(fs, Cloned);
    EncodeFlagsBit(fs, Equalize);
    EncodeFlagsBit(fs, PrefixFlag);
    var d := DecodeFlags(EncodeFlags(fs));
    forall f: RouteFlag
      ensures f in d <==> f in fs
    {
      match f
      case Notify => assert RouteFlagBit(f) == 0x100;
      case Cloned => assert RouteFlagBit(f) == 0x200;
      case Equalize => assert RouteFlagBit(f) == 0x400;
      case PrefixFlag => assert RouteFlagBit(f) == 0x800;
    }
    var a: bv32 := w & 0x100;
    var b: bv32 := w & 0x200;
    var c: bv32 := w & 0x400;
    var e: bv32 := w & 0x800;
    assert w & 0xF00 == a | b | c | e;
  }

  // Route attribute types: consecutive from 1, `attr_end` one past the last.

  datatype AttrType =
    | AttrDestination | AttrSource | AttrInputDevice | AttrOutputDevice
    | AttrGateway | AttrPriority | AttrPreferredSource

  const AttrBegin: nat := 1
  const AttrEnd: nat := 8

  const AttrTypes: seq<AttrType> := [
    AttrDestination, AttrSource, AttrInputDevice, AttrOutputDevice,
    AttrGateway, AttrPriority, AttrPreferredSource]

  function AttrTypeCode(a: AttrType): nat {
    match a
    case AttrDestination => 1
    case AttrSource => 2
    case AttrInputDevice => 3
    case AttrOutputDevice => 4
    case AttrGateway => 5
    case AttrPriority => 6
    case AttrPreferredSource => 7
  }

  function AttrTypeOf(c: nat): Option<AttrType> {
    if AttrBegin <= c < AttrEnd then Some(AttrTypes[c - AttrBegin]) else None
  }

  /** The attribute codes fill [1, 8) with one code per attribute type. */
  lemma AttrTypeCodes(a: AttrType, c: nat)
    ensures AttrBegin <= AttrTypeCode(a) < AttrEnd
    ensures AttrTypeOf(AttrTypeCode(a)) == Some(a)
    ensures AttrTypeOf(c).Some? <==> AttrBegin <= c < AttrEnd
    ensures AttrTypeOf(c) == Some(a) ==> AttrTypeCode(a) == c
  {
  }

  /** The route record: one-octet fields and a 32-bit flags word. */
  datatype Route = Route(
    family: uint8,
    dstLen: uint8,
    srcLen: uint8,
    tos: uint8,
    table: uint8,
    protocol: uint8,
    scope: uint8,
    routeType: uint8,
    flags: bv32)

  /**
   `route()`: every field zero. Each coded field then names its table's
   "nothing chosen" entry: unspecified table, protocol and route type,
   universe scope, and no flag set.
   */
  function DefaultRoute(): (r: Route)
    ensures r.family == 0 && r.dstLen == 0 && r.srcLen == 0 && r.tos == 0
    ensures r.table == TableCode(TableUnspecified)
    ensures r.protocol == ProtocolCode(ProtoUnspecified)
    ensures r.scope == ScopeCode(ScopeUniverse)
    ensures r.routeType == RouteTypeCode(TypeUnspecified)
    ensures r.flags == EncodeFlags({})
  {
    Route(0, 0, 0, 0, 0, 0, 0, 0, 0)
  }

  /**
   A default-constructed route has no family, no prefix lengths and no TOS,
   a zero flags word, and its coded fields all read as "unspecified": table
   unspecified, protocol unspecified, universe scope, route type
   unspecified, no flags.
   */
  lemma DefaultRouteUnspecified()
    ensures var r := DefaultRoute();
      && r.family == 0 && r.dstLen == 0 && r.srcLen == 0 && r.tos == 0
      && r.flags == 0
      && TableOf(r.table) == Some(TableUnspecified)
      && ProtocolOf(r.protocol) == Some(ProtoUnspecified)
      && ScopeOf(r.scope) == Some(ScopeUniverse)
      && RouteTypeOf(r.routeType) == Some(TypeUnspecified)
      && DecodeFlags(r.flags) == {}
  {
    var r := DefaultRoute();
    assert r == Route(0, 0, 0, 0, 0, 0, 0, 0, 0);
    assert Protocols[0] == ProtoUnspecified;
    assert RouteTypes[0] == TypeUnspecified;
    NoFlagsInZero();
  }

  lemma NoFlagsInZero()
    ensures DecodeFlags(0) == {}
  {
    var z: bv32 := 0;
    assert z & 0x100 == 0 && z & 0x200 == 0 && z & 0x400 == 0 && z & 0x800 == 0;
  }
}
