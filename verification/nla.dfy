/** The kernel's `struct nlattr` layout as `encode_default_nlas` writes it: a
    2-byte length (header included), a 2-byte type, the value, and zero padding
    up to the next multiple of NLA_ALIGNTO (Linux include/uapi/linux/netlink.h). */
module Nla {
  import opened Common

  const NLA_HEADER_LEN: nat := 4
  const NLA_ALIGNTO: nat := 4

  /** Byte order of the host; every `to_ne_bytes` of the encoder depends on it. */
  datatype Endian = Little | Big

  /** `align_nla`: the least multiple of NLA_ALIGNTO that is at least `len`. */
  function AlignNla(len: nat): (r: nat)
    ensures r % NLA_ALIGNTO == 0 && len <= r < len + NLA_ALIGNTO
  {
    (len + NLA_ALIGNTO - 1) / NLA_ALIGNTO * NLA_ALIGNTO
  }

  /** An attribute of any type with an uninterpreted value (`DefaultNla`). */
  datatype DefaultNla = DefaultNla(kind: uint16, value: seq<uint8>)

  function U16Bytes(e: Endian, x: uint16): (b: seq<uint8>)
    ensures |b| == 2
  {
    if e == Little then [x % 0x100, x / 0x100] else [x / 0x100, x % 0x100]
  }

  function U16Of(e: Endian, b0: uint8, b1: uint8): uint16 {
    if e == Little then b1 * 0x100 + b0 else b0 * 0x100 + b1
  }

  /** `x.to_be_bytes()` / `x.to_ne_bytes()` of a `u32`. */
  function U32Bytes(e: Endian, x: uint32): (b: seq<uint8>)
    ensures |b| == 4
  {
    var be := [x / 0x100_0000, x / 0x1_0000 % 0x100, x / 0x100 % 0x100, x % 0x100];
    if e == Big then be else [be[3], be[2], be[1], be[0]]
  }

  function Zeros(n: nat): (z: seq<uint8>)
    ensures |z| == n
  {
    seq(n, _ => 0)
  }

  /** One attribute as `encode_default_nlas` lays it out. The length field is
      `(value_len + 4) as u16`, so it wraps for values of 65532 bytes or more,
      while the slot still spans the full aligned length. */
  function EncodeNla(e: Endian, nla: DefaultNla): (b: seq<uint8>)
    ensures |b| == AlignNla(|nla.value| + NLA_HEADER_LEN)
  {
    var payload := |nla.value| + NLA_HEADER_LEN;
    U16Bytes(e, payload % 0x1_0000) + U16Bytes(e, nla.kind) + nla.value + Zeros(AlignNla(payload) - payload)
  }

  /** The slot reads back as the kernel reads it: the length field holds the
      header and value length truncated to 16 bits, the type field the kind,
      then the value, then zeros up to the slot's end. */
  lemma EncodeNlaLayout(e: Endian, nla: DefaultNla)
    ensures var b := EncodeNla(e, nla);
      && U16Of(e, b[0], b[1]) == (|nla.value| + NLA_HEADER_LEN) % 0x1_0000
      && U16Of(e, b[2], b[3]) == nla.kind
      && b[NLA_HEADER_LEN..NLA_HEADER_LEN + |nla.value|] == nla.value
      && forall k :: NLA_HEADER_LEN + |nla.value| <= k < |b| ==> b[k] == 0
  {
    var payload := |nla.value| + NLA_HEADER_LEN;
    var b := EncodeNla(e, nla);
    U16RoundTrip(e, payload % 0x1_0000);
    U16RoundTrip(e, nla.kind);
    assert b[NLA_HEADER_LEN..NLA_HEADER_LEN + |nla.value|] == nla.value;
  }

  /** The attributes' slots one after another. */
  function EncodedNlas(e: Endian, nlas: seq<DefaultNla>): (b: seq<uint8>)
    ensures |b| % NLA_ALIGNTO == 0
    ensures |b| >= NLA_HEADER_LEN * |nlas|
  {
    if |nlas| == 0 then [] else EncodeNla(e, nlas[0]) + EncodedNlas(e, nlas[1..])
  }

  lemma {:induction false} EncodedAppend(e: Endian, nlas: seq<DefaultNla>, nla: DefaultNla)
    ensures EncodedNlas(e, nlas + [nla]) == EncodedNlas(e, nlas) + EncodeNla(e, nla)
  {
    if |nlas| > 0 {
      assert (nlas + [nla])[1..] == nlas[1..] + [nla];
      EncodedAppend(e, nlas[1..], nla);
    } else {
      assert nlas + [nla] == [nla];
    }
  }

  /** `encode_default_nlas`: grows the buffer by each attribute's aligned size,
      zero-filled, then writes the length, the type and the value into that
      slot (`target`) in place. */
  method EncodeDefaultNlas(e: Endian, nlas: seq<DefaultNla>) returns (buffer: seq<uint8>)
    ensures buffer == EncodedNlas(e, nlas)
  {
    buffer := [];
    for i := 0 to |nlas|
      invariant buffer == EncodedNlas(e, nlas[..i])
    {
      var nla := nlas[i];
      var payloadLen := |nla.value| + NLA_HEADER_LEN;
      var alignedLen := AlignNla(payloadLen);
      var target := Zeros(alignedLen);
      var lenBytes := U16Bytes(e, payloadLen % 0x1_0000);
      target := target[0 := lenBytes[0]][1 := lenBytes[1]];
      var kindBytes := U16Bytes(e, nla.kind);
      target := target[2 := kindBytes[0]][3 := kindBytes[1]];
      target := target[..NLA_HEADER_LEN] + nla.value + target[payloadLen..];
      assert target == EncodeNla(e, nla);
      EncodedAppend(e, nlas[..i], nla);
      assert nlas[..i + 1] == nlas[..i] + [nla];
      buffer := buffer + target;
    }
    assert nlas[..|nlas|] == nlas;
  }

  /** Walks a buffer the way the kernel reads an attribute stream: read the length
      field, take the value behind the header, continue at the next aligned offset. */
  function ParseNlas(e: Endian, buf: seq<uint8>): Option<seq<DefaultNla>>
    decreases |buf|
  {
    if |buf| == 0 then Some([])
    else if |buf| < NLA_HEADER_LEN then None
    else
      var len := U16Of(e, buf[0], buf[1]);
      var kind := U16Of(e, buf[2], buf[3]);
      if len < NLA_HEADER_LEN || AlignNla(len) > |buf| then None
      else
        match ParseNlas(e, buf[AlignNla(len)..])
        case None => None
        case Some(rest) => Some([DefaultNla(kind, buf[NLA_HEADER_LEN..len])] + rest)
  }

  lemma U16RoundTrip(e: Endian, x: uint16)
    ensures U16Of(e, U16Bytes(e, x)[0], U16Bytes(e, x)[1]) == x
  {
  }

  /** The walker reads one encoded attribute off the front of a buffer and
      continues with whatever follows its slot. */
  lemma ParseOne(e: Endian, nla: DefaultNla, tail: seq<uint8>)
    requires |nla.value| + NLA_HEADER_LEN < 0x1_0000
    ensures ParseNlas(e, EncodeNla(e, nla) + tail) ==
      match ParseNlas(e, tail)
      case None => None
      case Some(rest) => Some([nla] + rest)
  {
    var payload := |nla.value| + NLA_HEADER_LEN;
    var lenBytes := U16Bytes(e, payload);
    var kindBytes := U16Bytes(e, nla.kind);
    var buf := EncodeNla(e, nla) + tail;
    assert buf[0] == lenBytes[0] && buf[1] == lenBytes[1];
    assert buf[2] == kindBytes[0] && buf[3] == kindBytes[1];
    U16RoundTrip(e, payload);
    U16RoundTrip(e, nla.kind);
    assert buf[NLA_HEADER_LEN..payload] == nla.value;
    assert buf[AlignNla(payload)..] == tail;
  }

  /** Walking the length fields of the encoded buffer recovers the attribute list,
      provided no length field wrapped. */
  lemma {:induction false} EncodeParseRoundTrip(e: Endian, nlas: seq<DefaultNla>)
    requires forall k :: 0 <= k < |nlas| ==> |nlas[k].value| + NLA_HEADER_LEN < 0x1_0000
    ensures ParseNlas(e, EncodedNlas(e, nlas)) == Some(nlas)
  {
    if |nlas| > 0 {
      EncodeParseRoundTrip(e, nlas[1..]);
      ParseOne(e, nlas[0], EncodedNlas(e, nlas[1..]));
      assert [nlas[0]] + nlas[1..] == nlas;
    }
  }
}
