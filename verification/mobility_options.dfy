/**
 The mobility options a Proxy Binding Update or Acknowledgement carries, in
 the Type-Length-Value format of section 6.2.1 of RFC 6275: the Network
 Access Identifier option (section 3 of RFC 4283), the Handoff Indicator
 option (section 8.4 of RFC 5213) and the Access Technology Type option
 (section 8.5 of RFC 5213). An option list is encoded back to back; zero
 octets between or after options are Pad1 options (section 6.2.2 of RFC 6275).
 */
module MobilityOptions {
  import opened Octets
  import opened Wrappers

  const Pad1Type: uint8 := 0
  const PadNType: uint8 := 1
  const NaiType: uint8 := 8
  const HandoffType: uint8 := 23
  const AttType: uint8 := 24

  /** The NAI subtype the senders write: 1, the identifier is a NAI. */
  const NaiSubtype: uint8 := 1

  /** The option Length octet counts the subtype plus the identifier, so at most 254 identifier octets fit. */
  const MaxNaiIdLength: nat := 254

  /** Octets of each option the senders append, apart from the identifier: NAI Type, Length and Subtype; whole Handoff; whole ATT. */
  const NaiFixedSize: nat := 3
  const HandoffSize: nat := 4
  const AttSize: nat := 4

  datatype MhOption =
    | Nai(subtype: uint8, id: Bytes)
    | Handoff(indicator: uint8)
    | Att(techType: uint8)

  /** An option whose Length octet can describe it. */
  predicate Valid(o: MhOption) {
    o.Nai? ==> |o.id| <= MaxNaiIdLength
  }

  predicate AllValid(os: seq<MhOption>) {
    forall i :: 0 <= i < |os| ==> Valid(os[i])
  }

  /** The option's Length octet: the octets that follow Type and Length. */
  function DataLength(o: MhOption): nat {
    match o
    case Nai(_, id) => 1 + |id|
    case Handoff(_) => 2
    case Att(_) => 2
  }

  /** `option::size`: the whole option, Type and Length octets included. */
  function Size(o: MhOption): nat {
    2 + DataLength(o)
  }

  /**
   The option's octets: Type, Length, then the data. The NAI data is the
   subtype followed by the identifier octets, with no terminator.
   */
  function Encode(o: MhOption): (b: Bytes)
    requires Valid(o)
    ensures |b| == Size(o)
    ensures b[0] != Pad1Type && b[0] != PadNType
    ensures b[1] as int == DataLength(o)
  {
    match o
    case Nai(st, id) => [NaiType, (1 + |id|) as uint8, st] + id
    case Handoff(hi) => [HandoffType, 2, 0, hi]
    case Att(t) => [AttType, 2, 0, t]
  }

  /** Reads one option from exactly its octets; reserved octets are ignored. */
  function Decode(b: Bytes): (r: Option<MhOption>)
    ensures r.Some? ==> Valid(r.value) && Size(r.value) == |b|
  {
    if |b| < 2 || |b| != 2 + b[1] as int then None
    else if b[0] == NaiType && |b| >= 3 then Some(Nai(b[2], b[3..]))
    else if b[0] == HandoffType && b[1] == 2 then Some(Handoff(b[3]))
    else if b[0] == AttType && b[1] == 2 then Some(Att(b[3]))
    else None
  }

  lemma DecodeEncode(o: MhOption)
    requires Valid(o)
    ensures Decode(Encode(o)) == Some(o)
  {
    if o.Nai? {
      assert Encode(o)[3..] == o.id;
    }
  }

  /** The sum of the sizes of a list of options. */
  function TotalSize(os: seq<MhOption>): nat {
    if |os| == 0 then 0 else Size(os[0]) + TotalSize(os[1..])
  }

  /** The options laid out back to back in list order. */
  function EncodeAll(os: seq<MhOption>): (b: Bytes)
    requires AllValid(os)
    ensures |b| == TotalSize(os)
  {
    if |os| == 0 then [] else Encode(os[0]) + EncodeAll(os[1..])
  }

  /** Where option i starts, relative to the first option: the sizes of the options before it. */
  function Offset(os: seq<MhOption>, i: nat): nat
    requires i <= |os|
  {
    TotalSize(os[..i])
  }

  lemma {:induction false} TotalSizeConcat(a: seq<MhOption>, b: seq<MhOption>)
    ensures TotalSize(a + b) == TotalSize(a) + TotalSize(b)
    decreases |a|
  {
    if |a| == 0 {
      assert a + b == b;
    } else {
      assert (a + b)[1..] == a[1..] + b;
      TotalSizeConcat(a[1..], b);
    }
  }

  lemma {:induction false} EncodeAllConcat(a: seq<MhOption>, b: seq<MhOption>)
    requires AllValid(a) && AllValid(b)
    ensures AllValid(a + b)
    ensures EncodeAll(a + b) == EncodeAll(a) + EncodeAll(b)
    decreases |a|
  {
    assert AllValid(a + b) by {
      forall i | 0 <= i < |a + b|
        ensures Valid((a + b)[i])
      {
        if i < |a| { assert (a + b)[i] == a[i]; } else { assert (a + b)[i] == b[i - |a|]; }
      }
    }
    if |a| == 0 {
      assert a + b == b;
    } else {
      var tail := a[1..];
      assert (a + b)[1..] == tail + b;
      assert (a + b)[0] == a[0];
      EncodeAllConcat(tail, b);
      var x, y, z := Encode(a[0]), EncodeAll(tail), EncodeAll(b);
      assert EncodeAll(a + b) == x + (y + z);
      assert x + (y + z) == (x + y) + z;
    }
  }

  /** The option after option i starts exactly where option i ends. */
  lemma {:induction false} OffsetStep(os: seq<MhOption>, i: nat)
    requires i < |os|
    ensures Offset(os, i + 1) == Offset(os, i) + Size(os[i])
  {
    var o := os[i];
    assert [o][1..] == [];
    assert TotalSize([o]) == Size(o);
    assert os[..i + 1] == os[..i] + [o];
    TotalSizeConcat(os[..i], [o]);
  }

  /**
   Option i of an encoded list sits at its running offset and occupies
   exactly its own size; with OffsetStep, options neither overlap nor leave
   gaps.
   */
  lemma {:induction false} Placement(os: seq<MhOption>, i: nat)
    requires AllValid(os)
    requires i < |os|
    ensures Offset(os, i) + Size(os[i]) <= TotalSize(os)
    ensures EncodeAll(os)[Offset(os, i)..Offset(os, i) + Size(os[i])] == Encode(os[i])
  {
    var before, rest := os[..i], os[i..];
    assert os == before + rest;
    assert AllValid(before) by {
      forall j | 0 <= j < |before| ensures Valid(before[j]) { assert before[j] == os[j]; }
    }
    assert AllValid(rest) by {
      forall j | 0 <= j < |rest| ensures Valid(rest[j]) { assert rest[j] == os[i + j]; }
    }
    EncodeAllConcat(before, rest);
    assert rest[0] == os[i];
    var x, y := Encode(os[i]), EncodeAll(rest[1..]);
    assert EncodeAll(rest) == x + y;
    SliceMiddle(EncodeAll(before), x, y);
  }

  lemma SliceMiddle(a: Bytes, x: Bytes, c: Bytes)
    ensures (a + (x + c))[|a|..|a| + |x|] == x
  {
  }

  /**
   Parses a run of options, skipping Pad1 and PadN padding. Fails on a
   truncated option or an option this model does not know.
   */
  function Parse(b: Bytes): Option<seq<MhOption>>
    decreases |b|
  {
    if |b| == 0 then Some([])
    else if b[0] == Pad1Type then Parse(b[1..])
    else if |b| < 2 || |b| < 2 + b[1] as int then None
    else if b[0] == PadNType then Parse(b[2 + b[1] as int..])
    else
      var o :- Decode(b[..2 + b[1] as int]);
      var rest :- Parse(b[2 + b[1] as int..]);
      Some([o] + rest)
  }

  lemma {:induction false} ParseZeros(k: nat)
    ensures Parse(Zeros(k)) == Some([])
  {
    if k > 0 {
      assert Zeros(k)[1..] == Zeros(k - 1);
      ParseZeros(k - 1);
    }
  }

  /** Encoding a list of options and padding it with zeros parses back to the same list. */
  lemma {:induction false} ParseEncodeAll(os: seq<MhOption>, k: nat)
    requires AllValid(os)
    ensures Parse(EncodeAll(os) + Zeros(k)) == Some(os)
    decreases |os|
  {
    if |os| == 0 {
      assert EncodeAll(os) + Zeros(k) == Zeros(k);
      ParseZeros(k);
    } else {
      var head := Encode(os[0]);
      var tail := EncodeAll(os[1..]) + Zeros(k);
      var b := EncodeAll(os) + Zeros(k);
      assert b == head + tail;
      assert b[..|head|] == head;
      assert b[|head|..] == tail;
      DecodeEncode(os[0]);
      ParseEncodeAll(os[1..], k);
      assert [os[0]] + os[1..] == os;
    }
  }
}
