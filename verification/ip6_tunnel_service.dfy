/**
 The inline part of the IPv6 tunnel service: the `parameters` record that
 describes one tunnel (a bounded interface name, the underlying device,
 encapsulation settings, flags and the two endpoint addresses) with its
 setters and getters, and the per-handle delete-on-close flag.

 The kernel-facing operations of the service are declared only and are not
 part of this model.
 */
module Ip6TunnelService {
  import opened Octets
  import opened Ipv6

  /** `if_name_size`: the interface name array holds 16 octets. */
  const IfNameSize: nat := 16

  /** The C string terminator. */
  const Nul: uint8 := 0

  /**
   `char _name[if_name_size]`: 16 C `char`s, each an octet. A name given as
   `const char*` is its octets, so the 16 bound counts octets.
   */
  type IfName = s: Bytes | |s| == IfNameSize witness Zeros(IfNameSize)

  /** IPPROTO_IPV6: IPv6-in-IPv6 encapsulation. */
  const IpprotoIpv6: uint8 := 41

  const DefaultProtocol: uint8 := IpprotoIpv6
  const DefaultEncapsulationLimit: uint8 := 4
  const DefaultHopLimit: uint8 := 64

  /** The `flags` enumeration of the tunnel parameters. */
  datatype TunnelFlag =
    | IgnoreEncapsulationLimit   // no encapsulation limit unless the inner packet has one
    | UseOriginalTrafficClass    // copy the traffic class of the inner packet
    | UseOriginalFlowlabel       // copy the flow label of the inner packet
    | UseOriginalDscp            // copy DSCP from the outer packet

  function FlagBit(f: TunnelFlag): bv32 {
    match f
    case IgnoreEncapsulationLimit => 0x01
    case UseOriginalTrafficClass => 0x02
    case UseOriginalFlowlabel => 0x04
    case UseOriginalDscp => 0x10
  }

  predicate IsSingleBit(b: bv32) {
    b != 0 && b & (b - 1) == 0
  }

  /**
   Every tunnel flag is one bit, and distinct flags share no bit, so each
   flag can be tested in a flag word independently of the others.
   */
  lemma TunnelFlagBits(f: TunnelFlag, g: TunnelFlag, w: bv32)
    ensures IsSingleBit(FlagBit(f))
    ensures f != g ==> FlagBit(f) & FlagBit(g) == 0
    ensures f != g ==> (w | FlagBit(g)) & FlagBit(f) == w & FlagBit(f)
    ensures f != g ==> (w & !FlagBit(g)) & FlagBit(f) == w & FlagBit(f)
  {
  }

  /** The record the configuration channel carries. */
  datatype Parameters = Parameters(
    name: IfName,
    link: int32,
    proto: uint8,
    encapLimit: uint8,
    hopLimit: uint8,
    flowinfo: uint32,
    flags: bv32,
    localAddr: RawAddress,
    remoteAddr: RawAddress)

  /** The length of the C string at the start of s: up to its first NUL, or all of s. */
  function CStrLen(s: Bytes): (n: nat)
    ensures n <= |s|
    ensures forall i :: 0 <= i < n ==> s[i] != Nul
    ensures n < |s| ==> s[n] == Nul
  {
    if |s| == 0 || s[0] == Nul then 0 else 1 + CStrLen(s[1..])
  }

  /**
   `std::strncpy(dst, src, n)` into an n-octet array: the octets of
   src before its terminator, at most n of them, then NUL to the end.
   */
  function StrNCopy(src: Bytes, n: nat): (dst: Bytes)
    ensures |dst| == n
    ensures forall i :: 0 <= i < n && i < CStrLen(src) ==> dst[i] == src[i]
    ensures forall i :: CStrLen(src) <= i < n ==> dst[i] == Nul
    decreases n
  {
    if n == 0 then []
    else if |src| == 0 || src[0] == Nul then Zeros(n)
    else [src[0]] + StrNCopy(src[1..], n - 1)
  }

  /** A setter call, one per setter of the record. */
  datatype Setting =
    | SetName(str: Bytes)
    | SetDevice(index: int32)
    | SetProtocol(protocol: uint8)
    | SetEncapsulationLimit(limit: uint8)
    | SetHopLimit(hops: uint8)
    | SetFlowinfo(info: uint32)
    | SetFlags(bits: bv32)
    | SetLocalAddress(local: Address)
    | SetRemoteAddress(remote: Address)

  datatype Field = NameField | DeviceField | ProtocolField | EncapsulationLimitField
                 | HopLimitField | FlowinfoField | FlagsField | LocalAddressField | RemoteAddressField

  function FieldOf(s: Setting): Field {
    match s
    case SetName(_) => NameField
    case SetDevice(_) => DeviceField
    case SetProtocol(_) => ProtocolField
    case SetEncapsulationLimit(_) => EncapsulationLimitField
    case SetHopLimit(_) => HopLimitField
    case SetFlowinfo(_) => FlowinfoField
    case SetFlags(_) => FlagsField
    case SetLocalAddress(_) => LocalAddressField
    case SetRemoteAddress(_) => RemoteAddressField
  }

  // The getters.

  function Name(p: Parameters): IfName { p.name }
  function Device(p: Parameters): int32 { p.link }
  function Protocol(p: Parameters): uint8 { p.proto }
  function EncapsulationLimit(p: Parameters): uint8 { p.encapLimit }
  function HopLimit(p: Parameters): uint8 { p.hopLimit }
  function Flowinfo(p: Parameters): uint32 { p.flowinfo }
  function Flags(p: Parameters): bv32 { p.flags }
  function LocalAddress(p: Parameters): Address { FromBytes(p.localAddr) }
  function RemoteAddress(p: Parameters): Address { FromBytes(p.remoteAddr) }

  /** q reads the same as p through every getter except the one for field f. */
  predicate AgreeExcept(p: Parameters, q: Parameters, f: Field) {
    && (f != NameField ==> Name(q) == Name(p))
    && (f != DeviceField ==> Device(q) == Device(p))
    && (f != ProtocolField ==> Protocol(q) == Protocol(p))
    && (f != EncapsulationLimitField ==> EncapsulationLimit(q) == EncapsulationLimit(p))
    && (f != HopLimitField ==> HopLimit(q) == HopLimit(p))
    && (f != FlowinfoField ==> Flowinfo(q) == Flowinfo(p))
    && (f != FlagsField ==> Flags(q) == Flags(p))
    && (f != LocalAddressField ==> LocalAddress(q) == LocalAddress(p))
    && (f != RemoteAddressField ==> RemoteAddress(q) == RemoteAddress(p))
  }

  /** What the getter of the setting's field returns after the setting. */
  predicate Reads(q: Parameters, s: Setting) {
    match s
    case SetName(str) => Name(q) == StrNCopy(str, IfNameSize)
    case SetDevice(index) => Device(q) == index
    case SetProtocol(v) => Protocol(q) == v
    case SetEncapsulationLimit(v) => EncapsulationLimit(q) == v
    case SetHopLimit(v) => HopLimit(q) == v
    case SetFlowinfo(v) => Flowinfo(q) == v
    case SetFlags(v) => Flags(q) == v
    case SetLocalAddress(a) => LocalAddress(q).octets == a.octets && LocalAddress(q).scopeId == 0
    case SetRemoteAddress(a) => RemoteAddress(q).octets == a.octets && RemoteAddress(q).scopeId == 0
  }

  /**
   The setters `name`, `device`, `protocol`, `encapsulation_limit`,
   `hop_limit`, `flowinfo`, `flags`, `local_address` and `remote_address`:
   each one's getter then returns the stored value (an address as its 16
   octets, rebuilt with scope 0) and every other getter is unaffected.
   */
  function Apply(p: Parameters, s: Setting): (q: Parameters)
    ensures Reads(q, s)
    ensures AgreeExcept(p, q, FieldOf(s))
  {
    match s
    case SetName(str) => p.(name := StrNCopy(str, IfNameSize))
    case SetDevice(index) => p.(link := index)
    case SetProtocol(v) => p.(proto := v)
    case SetEncapsulationLimit(v) => p.(encapLimit := v)
    case SetHopLimit(v) => p.(hopLimit := v)
    case SetFlowinfo(v) => p.(flowinfo := v)
    case SetFlags(v) => p.(flags := v)
    case SetLocalAddress(a) => p.(localAddr := ToBytes(a))
    case SetRemoteAddress(a) => p.(remoteAddr := ToBytes(a))
  }

  /**
   An address stored through a setter reads back with the same octets, and
   equal to the original exactly when the original had scope 0.
   */
  lemma AddressRoundTrip(p: Parameters, a: Address)
    ensures LocalAddress(Apply(p, SetLocalAddress(a))) == a <==> a.scopeId == 0
    ensures RemoteAddress(Apply(p, SetRemoteAddress(a))) == a <==> a.scopeId == 0
  {
  }

  /** Setters of two different fields can be called in either order. */
  lemma SettersCommute(p: Parameters, s: Setting, t: Setting)
    requires FieldOf(s) != FieldOf(t)
    ensures Apply(Apply(p, s), t) == Apply(Apply(p, t), s)
  {
  }

  /** A second call of the same setter overrides the first entirely. */
  lemma SetterOverrides(p: Parameters, s: Setting, t: Setting)
    requires FieldOf(s) == FieldOf(t)
    ensures Apply(Apply(p, s), t) == Apply(p, t)
  {
  }

  /**
   `name(str)` writes exactly 16 octets. A name shorter than 16
   octets is copied and NUL-padded, so the array reads back as the same
   C string; a longer one leaves its first 16 octets and no terminator.
   */
  lemma {:induction false} NameCopy(p: Parameters, str: Bytes)
    ensures var name := Name(Apply(p, SetName(str)));
      var n := CStrLen(str);
      && (n < IfNameSize ==> name[..n] == str[..n] && CStrLen(name) == n
                               && name[n..] == Zeros(IfNameSize - n))
      && (n >= IfNameSize ==> name == str[..IfNameSize] && CStrLen(name) == IfNameSize)
  {
    NameSet(p, str);
    if CStrLen(str) < IfNameSize {
      CopyShort(str, IfNameSize);
    } else {
      CopyLong(str, IfNameSize);
    }
  }

  lemma NameSet(p: Parameters, str: Bytes)
    ensures Name(Apply(p, SetName(str))) == StrNCopy(str, IfNameSize)
  {
  }

  lemma {:induction false} CopyShort(src: Bytes, n: nat)
    requires CStrLen(src) < n
    ensures var dst, k := StrNCopy(src, n), CStrLen(src);
      dst[..k] == src[..k] && CStrLen(dst) == k && dst[k..] == Zeros(n - k)
  {
    var dst, k := StrNCopy(src, n), CStrLen(src);
    assert dst[..k] == src[..k];
    assert dst[k..] == Zeros(n - k);
    CStrLenAt(dst, k);
  }

  lemma {:induction false} CopyLong(src: Bytes, n: nat)
    requires CStrLen(src) >= n
    ensures var dst := StrNCopy(src, n);
      dst == src[..n] && CStrLen(dst) == n
  {
    var dst := StrNCopy(src, n);
    assert dst == src[..n];
    CStrLenFull(dst);
  }

  lemma {:induction false} CStrLenAt(s: Bytes, n: nat)
    requires n < |s| && s[n] == Nul
    requires forall i :: 0 <= i < n ==> s[i] != Nul
    ensures CStrLen(s) == n
    decreases n
  {
    if n > 0 {
      CStrLenAt(s[1..], n - 1);
    }
  }

  lemma {:induction false} CStrLenFull(s: Bytes)
    requires forall i :: 0 <= i < |s| ==> s[i] != Nul
    ensures CStrLen(s) == |s|
    decreases |s|
  {
    if |s| > 0 {
      CStrLenFull(s[1..]);
    }
  }

  /** A tunnel list node; its links belong to the service's registry and are only carried here. */
  datatype ListHook = ListHook(prev: nat, next: nat)

  /** `implementation_type`: one tunnel handle. */
  datatype Implementation = Implementation(data: Parameters, node: ListHook, deleteOnClose: bool)

  /**
   The read-only `delete_on_close(impl)`: the flag the two-argument overload
   would hand back, so writing it back through that overload changes nothing.
   */
  function DeleteOnClose(impl: Implementation): (r: bool)
    ensures SwapDeleteOnClose(impl, r) == (r, impl)
  {
    impl.deleteOnClose
  }

  /**
   `delete_on_close(impl, value)`: returns the previous flag and the handle
   with the flag now `value`; the parameters and the list node are left as
   they were.
   */
  function SwapDeleteOnClose(impl: Implementation, value: bool): (r: (bool, Implementation))
    ensures r.0 == impl.deleteOnClose
    ensures r.1.deleteOnClose == value
    ensures r.1.data == impl.data && r.1.node == impl.node
  {
    (impl.deleteOnClose, impl.(deleteOnClose := value))
  }

  /**
   Swapping the returned previous value back in restores the handle, and
   swapping in the value already held changes nothing.
   */
  lemma SwapBack(impl: Implementation, value: bool)
    ensures var (prev, impl') := SwapDeleteOnClose(impl, value);
      && SwapDeleteOnClose(impl', prev) == (value, impl)
      && SwapDeleteOnClose(impl, DeleteOnClose(impl)) == (DeleteOnClose(impl), impl)
  {
  }
}
