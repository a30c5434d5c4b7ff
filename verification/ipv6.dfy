/**
 IPv6 and link-layer addresses as the senders and the tunnel parameters hold
 them. An `address_v6` carries 16 address octets and a scope identifier; its
 `bytes_type` form carries the octets only.
 */
module Ipv6 {
  import opened Octets

  const AddressSize: nat := 16
  const MacSize: nat := 6

  /** `address_v6::bytes_type`: the 16 octets of an address in network order. */
  type RawAddress = b: Bytes | |b| == AddressSize witness Zeros(AddressSize)

  /** `address_v6`: octets plus the scope identifier used by link-local addresses. */
  datatype Address = Address(octets: RawAddress, scopeId: nat)

  /** `ll::mac_address`: a 6-octet hardware address. */
  type MacAddress = b: Bytes | |b| == MacSize witness Zeros(MacSize)

  /** An advertised prefix: its address octets and its length in bits. */
  datatype Prefix = Prefix(octets: RawAddress, length: uint8)

  /** `addr.to_bytes()`. */
  function ToBytes(a: Address): RawAddress {
    a.octets
  }

  /** `address_v6(bytes)`: the constructor leaves the scope identifier 0. */
  function FromBytes(b: RawAddress): Address {
    Address(b, 0)
  }

  /**
   Storing an address as bytes and rebuilding it keeps every octet, and
   gives back an equal address exactly when its scope identifier was 0.
   */
  lemma BytesRoundTrip(a: Address, b: RawAddress)
    ensures ToBytes(FromBytes(b)) == b
    ensures FromBytes(ToBytes(a)).octets == a.octets
    ensures FromBytes(ToBytes(a)) == a <==> a.scopeId == 0
  {
  }
}
