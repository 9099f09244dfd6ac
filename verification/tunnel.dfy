/** The hand-built attribute lists of the tunnel kinds (GRE, GRE6, IPIP and
    ip6tnl). Attribute type numbers are the `IFLA_GRE_*` and `IFLA_IPTUN_*`
    values of Linux include/uapi/linux/if_tunnel.h. */
module Tunnel {
  import opened Common
  import opened Nla

  const IFLA_GRE_LINK: uint16 := 1
  const IFLA_GRE_IKEY: uint16 := 4
  const IFLA_GRE_OKEY: uint16 := 5
  const IFLA_GRE_LOCAL: uint16 := 6
  const IFLA_GRE_REMOTE: uint16 := 7
  const IFLA_GRE_TTL: uint16 := 8
  const IFLA_GRE_TOS: uint16 := 9
  const IFLA_GRE_PMTUDISC: uint16 := 10
  const IFLA_GRE_ENCAP_LIMIT: uint16 := 11
  const IFLA_GRE_IGNORE_DF: uint16 := 19

  const IFLA_IPTUN_LINK: uint16 := 1
  const IFLA_IPTUN_LOCAL: uint16 := 2
  const IFLA_IPTUN_REMOTE: uint16 := 3
  const IFLA_IPTUN_TTL: uint16 := 4
  const IFLA_IPTUN_TOS: uint16 := 5
  const IFLA_IPTUN_ENCAP_LIMIT: uint16 := 6
  const IFLA_IPTUN_FLOWINFO: uint16 := 7
  const IFLA_IPTUN_PMTUDISC: uint16 := 10

  /** The order in which the GRE builders emit their attributes. */
  const GRE_ORDER: seq<uint16> := [IFLA_GRE_LOCAL, IFLA_GRE_REMOTE, IFLA_GRE_TTL, IFLA_GRE_TOS,
    IFLA_GRE_IKEY, IFLA_GRE_OKEY, IFLA_GRE_ENCAP_LIMIT, IFLA_GRE_PMTUDISC, IFLA_GRE_IGNORE_DF,
    IFLA_GRE_LINK]

  /** The order in which the IP-in-IP builders emit their attributes. */
  const IPTUN_ORDER: seq<uint16> := [IFLA_IPTUN_LOCAL, IFLA_IPTUN_REMOTE, IFLA_IPTUN_TTL,
    IFLA_IPTUN_TOS, IFLA_IPTUN_FLOWINFO, IFLA_IPTUN_ENCAP_LIMIT, IFLA_IPTUN_PMTUDISC,
    IFLA_IPTUN_LINK]

  datatype GreConfig = GreConfig(
    local: Ipv4Addr, remote: Ipv4Addr, ttl: Option<uint8>, tos: Option<uint8>,
    key: Option<uint32>, encapLimit: Option<uint8>, pmtudisc: bool, ignoreDf: bool,
    link: Option<uint32>)

  datatype Gre6Config = Gre6Config(
    local: Ipv6Addr, remote: Ipv6Addr, hopLimit: Option<uint8>, trafficClass: Option<uint8>,
    key: Option<uint32>, encapLimit: Option<uint8>, pmtudisc: bool, ignoreDf: bool,
    link: Option<uint32>)

  datatype IpIpConfig = IpIpConfig(
    local: Ipv4Addr, remote: Ipv4Addr, ttl: Option<uint8>, tos: Option<uint8>,
    encapLimit: Option<uint8>, pmtudisc: bool, link: Option<uint32>)

  datatype Ip6TnlConfig = Ip6TnlConfig(
    local: Ipv6Addr, remote: Ipv6Addr, hopLimit: Option<uint8>, trafficClass: Option<uint8>,
    flowLabel: Option<uint32>, encapLimit: Option<uint8>, pmtudisc: bool, link: Option<uint32>)

  /** `Ipv4Addr::octets`: the address in network byte order. */
  function Ipv4Octets(a: Ipv4Addr): (b: seq<uint8>)
    ensures |b| == 4
  {
    U32Bytes(Big, a as int)
  }

  /** `Ipv6Addr::octets`: the address in network byte order. */
  function Ipv6Octets(a: Ipv6Addr): (b: seq<uint8>)
    ensures |b| == 16
  {
    seq(16, i requires 0 <= i < 16 => (a / Pow2(8 * (15 - i))) % 0x100)
  }

  function FlagByte(b: bool): uint8 {
    if b then 1 else 0
  }

  /** The one-byte value of an optional `u8` attribute. */
  function ByteValue(o: Option<uint8>): Option<seq<uint8>> {
    match o
    case Some(b) => Some([b])
    case None => None
  }

  /** The four-byte value of an optional `u32` attribute in byte order `e`. */
  function WordValue(e: Endian, o: Option<uint32>): Option<seq<uint8>> {
    match o
    case Some(x) => Some(U32Bytes(e, x))
    case None => None
  }

  // ---------------------------------------------------------------------------
  // Attribute slots: each builder visits a fixed list of attribute types and
  // pushes an attribute for each one that has a value.
  // ---------------------------------------------------------------------------

  datatype Slot = Slot(kind: uint16, value: Option<seq<uint8>>)

  function Piece(s: Slot): seq<DefaultNla> {
    match s.value
    case Some(v) => [DefaultNla(s.kind, v)]
    case None => []
  }

  /** The attributes pushed for the slots, in slot order. */
  function Emit(slots: seq<Slot>): seq<DefaultNla> {
    if |slots| == 0 then [] else Piece(slots[0]) + Emit(slots[1..])
  }

  function Kinds(slots: seq<Slot>): seq<uint16> {
    seq(|slots|, i requires 0 <= i < |slots| => slots[i].kind)
  }

  predicate Distinct(ks: seq<uint16>) {
    forall i, j :: 0 <= i < j < |ks| ==> ks[i] != ks[j]
  }

  /** The value of the first attribute of type `kind`, as a reader of the list sees it. */
  function Find(nlas: seq<DefaultNla>, kind: uint16): Option<seq<uint8>> {
    if |nlas| == 0 then None
    else if nlas[0].kind == kind then Some(nlas[0].value)
    else Find(nlas[1..], kind)
  }

  /** Index of `k` in `order` (`|order|` when absent). */
  function Position(order: seq<uint16>, k: uint16): nat {
    if |order| == 0 then 0
    else if order[0] == k then 0
    else 1 + Position(order[1..], k)
  }

  /** Every attribute's type is listed in `order`, and the attributes appear in
      strictly increasing position (so no type appears twice). */
  predicate FollowsOrder(nlas: seq<DefaultNla>, order: seq<uint16>) {
    (forall i :: 0 <= i < |nlas| ==> nlas[i].kind in order)
    && forall i, j :: 0 <= i < j < |nlas| ==> Position(order, nlas[i].kind) < Position(order, nlas[j].kind)
  }

  lemma {:induction false} FindAppend(a: seq<DefaultNla>, b: seq<DefaultNla>, kind: uint16)
    ensures Find(a + b, kind) == if Find(a, kind).Some? then Find(a, kind) else Find(b, kind)
  {
    if |a| > 0 {
      assert (a + b)[1..] == a[1..] + b;
      FindAppend(a[1..], b, kind);
    } else {
      assert a + b == b;
    }
  }

  lemma {:induction false} EmitSnoc(slots: seq<Slot>, s: Slot)
    ensures Emit(slots + [s]) == Emit(slots) + Piece(s)
  {
    if |slots| > 0 {
      assert (slots + [s])[1..] == slots[1..] + [s];
      EmitSnoc(slots[1..], s);
    } else {
      assert slots + [s] == [s];
    }
  }

  /** A type no slot has never appears. */
  lemma {:induction false} FindAbsent(slots: seq<Slot>, kind: uint16)
    requires kind !in Kinds(slots)
    ensures Find(Emit(slots), kind) == None
  {
    if |slots| > 0 {
      assert Kinds(slots[1..]) == Kinds(slots)[1..];
      assert Kinds(slots)[0] == slots[0].kind;
      FindAbsent(slots[1..], kind);
      FindAppend(Piece(slots[0]), Emit(slots[1..]), kind);
    }
  }

  /** Every emitted value is the value of some slot, so whatever holds of all
      slot values holds of all emitted values. */
  lemma {:induction false} EmitValues(slots: seq<Slot>, ok: seq<uint8> -> bool)
    requires forall i :: 0 <= i < |slots| ==> slots[i].value.None? || ok(slots[i].value.value)
    ensures forall k :: 0 <= k < |Emit(slots)| ==> ok(Emit(slots)[k].value)
  {
    if |slots| > 0 {
      EmitValues(slots[1..], ok);
    }
  }

  /** With distinct slot types, the value a reader finds for a slot's type is
      the slot's value: present exactly when the slot has one. */
  lemma {:induction false} FindEmit(slots: seq<Slot>, i: nat)
    requires Distinct(Kinds(slots)) && i < |slots|
    ensures Find(Emit(slots), slots[i].kind) == slots[i].value
  {
    var kind := slots[i].kind;
    assert Kinds(slots[1..]) == Kinds(slots)[1..];
    FindAppend(Piece(slots[0]), Emit(slots[1..]), kind);
    if i == 0 {
      assert Kinds(slots)[0] == kind;
      assert kind !in Kinds(slots[1..]) by {
        forall j | 0 <= j < |slots| - 1
          ensures Kinds(slots[1..])[j] != kind
        {
          assert Kinds(slots)[j + 1] == Kinds(slots[1..])[j];
        }
      }
      FindAbsent(slots[1..], kind);
    } else {
      assert Kinds(slots)[0] == slots[0].kind && Kinds(slots)[i] == kind;
      FindEmit(slots[1..], i - 1);
    }
  }

  /** The emitted list follows the slot order. */
  lemma {:induction false} EmitFollowsOrder(slots: seq<Slot>)
    requires Distinct(Kinds(slots))
    ensures FollowsOrder(Emit(slots), Kinds(slots))
  {
    if |slots| > 0 {
      var ks := Kinds(slots);
      var rest := Emit(slots[1..]);
      assert Kinds(slots[1..]) == ks[1..];
      EmitFollowsOrder(slots[1..]);
      forall n | 0 <= n < |rest|
        ensures rest[n].kind in ks[1..] && Position(ks, rest[n].kind) == 1 + Position(ks[1..], rest[n].kind)
      {
        var j :| 0 <= j < |ks[1..]| && ks[1..][j] == rest[n].kind;
        assert ks[j + 1] == rest[n].kind && ks[0] == slots[0].kind;
      }
      assert Position(ks, slots[0].kind) == 0;
    }
  }

  // ---------------------------------------------------------------------------
  // GRE and GRE6 (`gre_nlas`, `gre6_nlas`)
  // ---------------------------------------------------------------------------

  function GreSlots(e: Endian, local: seq<uint8>, remote: seq<uint8>, ttl: Option<uint8>,
    tos: Option<uint8>, key: Option<uint32>, encapLimit: Option<uint8>, pmtudisc: bool,
    ignoreDf: bool, link: Option<uint32>): seq<Slot>
  {
    [Slot(IFLA_GRE_LOCAL, Some(local))]
    + [Slot(IFLA_GRE_REMOTE, Some(remote))]
    + [Slot(IFLA_GRE_TTL, ByteValue(ttl))]
    + [Slot(IFLA_GRE_TOS, ByteValue(tos))]
    + [Slot(IFLA_GRE_IKEY, WordValue(Big, key))]
    + [Slot(IFLA_GRE_OKEY, WordValue(Big, key))]
    + [Slot(IFLA_GRE_ENCAP_LIMIT, Some([encapLimit.GetOr(0xff)]))]
    + [Slot(IFLA_GRE_PMTUDISC, Some([FlagByte(pmtudisc)]))]
    + [Slot(IFLA_GRE_IGNORE_DF, Some([FlagByte(ignoreDf)]))]
    + [Slot(IFLA_GRE_LINK, WordValue(e, link))]
  }

  /** The GRE slots emit the concatenation of their pieces, in slot order. */
  lemma GreSlotsEmit(e: Endian, local: seq<uint8>, remote: seq<uint8>, ttl: Option<uint8>,
    tos: Option<uint8>, key: Option<uint32>, encapLimit: Option<uint8>, pmtudisc: bool,
    ignoreDf: bool, link: Option<uint32>)
    ensures Emit(GreSlots(e, local, remote, ttl, tos, key, encapLimit, pmtudisc, ignoreDf, link)) ==
      Piece(Slot(IFLA_GRE_LOCAL, Some(local)))
      + Piece(Slot(IFLA_GRE_REMOTE, Some(remote)))
      + Piece(Slot(IFLA_GRE_TTL, ByteValue(ttl)))
      + Piece(Slot(IFLA_GRE_TOS, ByteValue(tos)))
      + Piece(Slot(IFLA_GRE_IKEY, WordValue(Big, key)))
      + Piece(Slot(IFLA_GRE_OKEY, WordValue(Big, key)))
      + Piece(Slot(IFLA_GRE_ENCAP_LIMIT, Some([encapLimit.GetOr(0xff)])))
      + Piece(Slot(IFLA_GRE_PMTUDISC, Some([FlagByte(pmtudisc)])))
      + Piece(Slot(IFLA_GRE_IGNORE_DF, Some([FlagByte(ignoreDf)])))
      + Piece(Slot(IFLA_GRE_LINK, WordValue(e, link)))
  {
    var lo := Slot(IFLA_GRE_LOCAL, Some(local));
    var re := Slot(IFLA_GRE_REMOTE, Some(remote));
    var tt := Slot(IFLA_GRE_TTL, ByteValue(ttl));
    var to := Slot(IFLA_GRE_TOS, ByteValue(tos));
    var ik := Slot(IFLA_GRE_IKEY, WordValue(Big, key));
    var ok := Slot(IFLA_GRE_OKEY, WordValue(Big, key));
    var en := Slot(IFLA_GRE_ENCAP_LIMIT, Some([encapLimit.GetOr(0xff)]));
    var pm := Slot(IFLA_GRE_PMTUDISC, Some([FlagByte(pmtudisc)]));
    var ig := Slot(IFLA_GRE_IGNORE_DF, Some([FlagByte(ignoreDf)]));
    var li := Slot(IFLA_GRE_LINK, WordValue(e, link));
    assert Emit([lo]) == Piece(lo);
    EmitSnoc([lo], re);
    EmitSnoc([lo] + [re], tt);
    EmitSnoc([lo] + [re] + [tt], to);
    EmitSnoc([lo] + [re] + [tt] + [to], ik);
    EmitSnoc([lo] + [re] + [tt] + [to] + [ik], ok);
    EmitSnoc([lo] + [re] + [tt] + [to] + [ik] + [ok], en);
    EmitSnoc([lo] + [re] + [tt] + [to] + [ik] + [ok] + [en], pm);
    EmitSnoc([lo] + [re] + [tt] + [to] + [ik] + [ok] + [en] + [pm], ig);
    EmitSnoc([lo] + [re] + [tt] + [to] + [ik] + [ok] + [en] + [pm] + [ig], li);
  }

  /** The GRE attribute list shared by the IPv4 and IPv6 variants, which differ
      only in the width of the endpoint addresses. */
  function GreAttributes(e: Endian, local: seq<uint8>, remote: seq<uint8>, ttl: Option<uint8>,
    tos: Option<uint8>, key: Option<uint32>, encapLimit: Option<uint8>, pmtudisc: bool,
    ignoreDf: bool, link: Option<uint32>): (r: seq<DefaultNla>)
    ensures FollowsOrder(r, GRE_ORDER)
    ensures Find(r, IFLA_GRE_LOCAL) == Some(local) && Find(r, IFLA_GRE_REMOTE) == Some(remote)
    ensures Find(r, IFLA_GRE_TTL) == ByteValue(ttl) && Find(r, IFLA_GRE_TOS) == ByteValue(tos)
    ensures Find(r, IFLA_GRE_IKEY) == Find(r, IFLA_GRE_OKEY)
    ensures Find(r, IFLA_GRE_IKEY).Some? <==> key.Some?
    ensures key.Some? ==> Find(r, IFLA_GRE_IKEY) == Some(U32Bytes(Big, key.value))
    ensures Find(r, IFLA_GRE_ENCAP_LIMIT) == Some([if encapLimit.Some? then encapLimit.value else 0xff])
    ensures Find(r, IFLA_GRE_PMTUDISC) == Some([if pmtudisc then 1 else 0])
    ensures Find(r, IFLA_GRE_IGNORE_DF) == Some([if ignoreDf then 1 else 0])
    ensures Find(r, IFLA_GRE_LINK).Some? <==> link.Some?
    ensures link.Some? ==> Find(r, IFLA_GRE_LINK) == Some(U32Bytes(e, link.value))
  {
    var slots := GreSlots(e, local, remote, ttl, tos, key, encapLimit, pmtudisc, ignoreDf, link);
    assert Kinds(slots) == GRE_ORDER;
    FindEmit(slots, 0); FindEmit(slots, 1); FindEmit(slots, 2); FindEmit(slots, 3);
    FindEmit(slots, 4); FindEmit(slots, 5); FindEmit(slots, 6); FindEmit(slots, 7);
    FindEmit(slots, 8); FindEmit(slots, 9);
    EmitFollowsOrder(slots);
    Emit(slots)
  }

  /** The pushes of `gre_nlas`/`gre6_nlas`, over the endpoint octets. */
  method PushGreNlas(e: Endian, local: seq<uint8>, remote: seq<uint8>, ttl: Option<uint8>,
    tos: Option<uint8>, key: Option<uint32>, encapLimit: Option<uint8>, pmtudisc: bool,
    ignoreDf: bool, link: Option<uint32>) returns (nlas: seq<DefaultNla>)
    ensures nlas == GreAttributes(e, local, remote, ttl, tos, key, encapLimit, pmtudisc, ignoreDf, link)
  {
    nlas := [];
    nlas := nlas + [DefaultNla(IFLA_GRE_LOCAL, local)];
    ghost var pieces := Piece(Slot(IFLA_GRE_LOCAL, Some(local)));
    assert nlas == pieces;
    nlas := nlas + [DefaultNla(IFLA_GRE_REMOTE, remote)];
    pieces := pieces + Piece(Slot(IFLA_GRE_REMOTE, Some(remote)));
    assert nlas == pieces;
    if ttl.Some? {
      nlas := nlas + [DefaultNla(IFLA_GRE_TTL, [ttl.value])];
    }
    pieces := pieces + Piece(Slot(IFLA_GRE_TTL, ByteValue(ttl)));
    assert nlas == pieces;
    if tos.Some? {
      nlas := nlas + [DefaultNla(IFLA_GRE_TOS, [tos.value])];
    }
    pieces := pieces + Piece(Slot(IFLA_GRE_TOS, ByteValue(tos)));
    assert nlas == pieces;
    if key.Some? {
      var bytes := U32Bytes(Big, key.value);
      nlas := nlas + [DefaultNla(IFLA_GRE_IKEY, bytes)];
      nlas := nlas + [DefaultNla(IFLA_GRE_OKEY, bytes)];
    }
    pieces := pieces + Piece(Slot(IFLA_GRE_IKEY, WordValue(Big, key)));
    pieces := pieces + Piece(Slot(IFLA_GRE_OKEY, WordValue(Big, key)));
    assert nlas == pieces;
    var limit := if encapLimit.Some? then encapLimit.value else 0xff;
    nlas := nlas + [DefaultNla(IFLA_GRE_ENCAP_LIMIT, [limit])];
    pieces := pieces + Piece(Slot(IFLA_GRE_ENCAP_LIMIT, Some([encapLimit.GetOr(0xff)])));
    assert nlas == pieces;
    nlas := nlas + [DefaultNla(IFLA_GRE_PMTUDISC, [if pmtudisc then 1 else 0])];
    pieces := pieces + Piece(Slot(IFLA_GRE_PMTUDISC, Some([FlagByte(pmtudisc)])));
    assert nlas == pieces;
    nlas := nlas + [DefaultNla(IFLA_GRE_IGNORE_DF, [if ignoreDf then 1 else 0])];
    pieces := pieces + Piece(Slot(IFLA_GRE_IGNORE_DF, Some([FlagByte(ignoreDf)])));
    assert nlas == pieces;
    if link.Some? {
      nlas := nlas + [DefaultNla(IFLA_GRE_LINK, U32Bytes(e, link.value))];
    }
    pieces := pieces + Piece(Slot(IFLA_GRE_LINK, WordValue(e, link)));
    assert nlas == pieces;
    GreSlotsEmit(e, local, remote, ttl, tos, key, encapLimit, pmtudisc, ignoreDf, link);
  }

  method GreNlas(e: Endian, cfg: GreConfig) returns (nlas: seq<DefaultNla>)
    ensures nlas == GreAttributes(e, Ipv4Octets(cfg.local), Ipv4Octets(cfg.remote), cfg.ttl,
      cfg.tos, cfg.key, cfg.encapLimit, cfg.pmtudisc, cfg.ignoreDf, cfg.link)
  {
    nlas := PushGreNlas(e, Ipv4Octets(cfg.local), Ipv4Octets(cfg.remote), cfg.ttl, cfg.tos,
      cfg.key, cfg.encapLimit, cfg.pmtudisc, cfg.ignoreDf, cfg.link);
  }

  /** The hop limit and traffic class travel as the GRE TTL and TOS attributes. */
  method Gre6Nlas(e: Endian, cfg: Gre6Config) returns (nlas: seq<DefaultNla>)
    ensures nlas == GreAttributes(e, Ipv6Octets(cfg.local), Ipv6Octets(cfg.remote), cfg.hopLimit,
      cfg.trafficClass, cfg.key, cfg.encapLimit, cfg.pmtudisc, cfg.ignoreDf, cfg.link)
  {
    nlas := PushGreNlas(e, Ipv6Octets(cfg.local), Ipv6Octets(cfg.remote), cfg.hopLimit,
      cfg.trafficClass, cfg.key, cfg.encapLimit, cfg.pmtudisc, cfg.ignoreDf, cfg.link);
  }

  // ---------------------------------------------------------------------------
  // IPIP and ip6tnl (`iptunnel_v4_nlas`, `iptunnel_v6_nlas`)
  // ---------------------------------------------------------------------------

  function IptunSlots(e: Endian, local: seq<uint8>, remote: seq<uint8>, ttl: Option<uint8>,
    tos: Option<uint8>, flowLabel: Option<uint32>, encapLimit: Option<uint8>, pmtudisc: bool,
    link: Option<uint32>): seq<Slot>
  {
    [Slot(IFLA_IPTUN_LOCAL, Some(local))]
    + [Slot(IFLA_IPTUN_REMOTE, Some(remote))]
    + [Slot(IFLA_IPTUN_TTL, ByteValue(ttl))]
    + [Slot(IFLA_IPTUN_TOS, ByteValue(tos))]
    + [Slot(IFLA_IPTUN_FLOWINFO, WordValue(Big, flowLabel))]
    + [Slot(IFLA_IPTUN_ENCAP_LIMIT, Some([encapLimit.GetOr(0xff)]))]
    + [Slot(IFLA_IPTUN_PMTUDISC, Some([FlagByte(pmtudisc)]))]
    + [Slot(IFLA_IPTUN_LINK, WordValue(e, link))]
  }

  /** The IP-in-IP slots emit the concatenation of their pieces, in slot order. */
  lemma IptunSlotsEmit(e: Endian, local: seq<uint8>, remote: seq<uint8>, ttl: Option<uint8>,
    tos: Option<uint8>, flowLabel: Option<uint32>, encapLimit: Option<uint8>, pmtudisc: bool,
    link: Option<uint32>)
    ensures Emit(IptunSlots(e, local, remote, ttl, tos, flowLabel, encapLimit, pmtudisc, link)) ==
      Piece(Slot(IFLA_IPTUN_LOCAL, Some(local)))
      + Piece(Slot(IFLA_IPTUN_REMOTE, Some(remote)))
      + Piece(Slot(IFLA_IPTUN_TTL, ByteValue(ttl)))
      + Piece(Slot(IFLA_IPTUN_TOS, ByteValue(tos)))
      + Piece(Slot(IFLA_IPTUN_FLOWINFO, WordValue(Big, flowLabel)))
      + Piece(Slot(IFLA_IPTUN_ENCAP_LIMIT, Some([encapLimit.GetOr(0xff)])))
      + Piece(Slot(IFLA_IPTUN_PMTUDISC, Some([FlagByte(pmtudisc)])))
      + Piece(Slot(IFLA_IPTUN_LINK, WordValue(e, link)))
  {
    var lo := Slot(IFLA_IPTUN_LOCAL, Some(local));
    var re := Slot(IFLA_IPTUN_REMOTE, Some(remote));
    var tt := Slot(IFLA_IPTUN_TTL, ByteValue(ttl));
    var to := Slot(IFLA_IPTUN_TOS, ByteValue(tos));
    var fl := Slot(IFLA_IPTUN_FLOWINFO, WordValue(Big, flowLabel));
    var en := Slot(IFLA_IPTUN_ENCAP_LIMIT, Some([encapLimit.GetOr(0xff)]));
    var pm := Slot(IFLA_IPTUN_PMTUDISC, Some([FlagByte(pmtudisc)]));
    var li := Slot(IFLA_IPTUN_LINK, WordValue(e, link));
    assert Emit([lo]) == Piece(lo);
    EmitSnoc([lo], re);
    EmitSnoc([lo] + [re], tt);
    EmitSnoc([lo] + [re] + [tt], to);
    EmitSnoc([lo] + [re] + [tt] + [to], fl);
    EmitSnoc([lo] + [re] + [tt] + [to] + [fl], en);
    EmitSnoc([lo] + [re] + [tt] + [to] + [fl] + [en], pm);
    EmitSnoc([lo] + [re] + [tt] + [to] + [fl] + [en] + [pm], li);
  }

  /** The IP-in-IP attribute list; the IPv4 variant has no flow label. */
  function IptunAttributes(e: Endian, local: seq<uint8>, remote: seq<uint8>, ttl: Option<uint8>,
    tos: Option<uint8>, flowLabel: Option<uint32>, encapLimit: Option<uint8>, pmtudisc: bool,
    link: Option<uint32>): (r: seq<DefaultNla>)
    ensures FollowsOrder(r, IPTUN_ORDER)
    ensures Find(r, IFLA_IPTUN_LOCAL) == Some(local) && Find(r, IFLA_IPTUN_REMOTE) == Some(remote)
    ensures Find(r, IFLA_IPTUN_TTL) == ByteValue(ttl) && Find(r, IFLA_IPTUN_TOS) == ByteValue(tos)
    ensures Find(r, IFLA_IPTUN_FLOWINFO).Some? <==> flowLabel.Some?
    ensures flowLabel.Some? ==> Find(r, IFLA_IPTUN_FLOWINFO) == Some(U32Bytes(Big, flowLabel.value))
    ensures Find(r, IFLA_IPTUN_ENCAP_LIMIT) == Some([if encapLimit.Some? then encapLimit.value else 0xff])
    ensures Find(r, IFLA_IPTUN_PMTUDISC) == Some([if pmtudisc then 1 else 0])
    ensures Find(r, IFLA_IPTUN_LINK).Some? <==> link.Some?
    ensures link.Some? ==> Find(r, IFLA_IPTUN_LINK) == Some(U32Bytes(e, link.value))
    ensures forall k :: 0 <= k < |r| ==> |r[k].value| <= 4 || r[k].value == local || r[k].value == remote
  {
    var slots := IptunSlots(e, local, remote, ttl, tos, flowLabel, encapLimit, pmtudisc, link);
    assert Kinds(slots) == IPTUN_ORDER;
    FindEmit(slots, 0); FindEmit(slots, 1); FindEmit(slots, 2); FindEmit(slots, 3);
    FindEmit(slots, 4); FindEmit(slots, 5); FindEmit(slots, 6); FindEmit(slots, 7);
    EmitValues(slots, v => |v| <= 4 || v == local || v == remote);
    EmitFollowsOrder(slots);
    Emit(slots)
  }

  /** The pushes of `iptunnel_v4_nlas`/`iptunnel_v6_nlas`, over the endpoint octets. */
  method PushIptunNlas(e: Endian, local: seq<uint8>, remote: seq<uint8>, ttl: Option<uint8>,
    tos: Option<uint8>, flowLabel: Option<uint32>, encapLimit: Option<uint8>, pmtudisc: bool,
    link: Option<uint32>) returns (nlas: seq<DefaultNla>)
    ensures nlas == IptunAttributes(e, local, remote, ttl, tos, flowLabel, encapLimit, pmtudisc, link)
  {
    nlas := [];
    nlas := nlas + [DefaultNla(IFLA_IPTUN_LOCAL, local)];
    ghost var pieces := Piece(Slot(IFLA_IPTUN_LOCAL, Some(local)));
    assert nlas == pieces;
    nlas := nlas + [DefaultNla(IFLA_IPTUN_REMOTE, remote)];
    pieces := pieces + Piece(Slot(IFLA_IPTUN_REMOTE, Some(remote)));
    assert nlas == pieces;
    if ttl.Some? {
      nlas := nlas + [DefaultNla(IFLA_IPTUN_TTL, [ttl.value])];
    }
    pieces := pieces + Piece(Slot(IFLA_IPTUN_TTL, ByteValue(ttl)));
    assert nlas == pieces;
    if tos.Some? {
      nlas := nlas + [DefaultNla(IFLA_IPTUN_TOS, [tos.value])];
    }
    pieces := pieces + Piece(Slot(IFLA_IPTUN_TOS, ByteValue(tos)));
    assert nlas == pieces;
    if flowLabel.Some? {
      nlas := nlas + [DefaultNla(IFLA_IPTUN_FLOWINFO, U32Bytes(Big, flowLabel.value))];
    }
    pieces := pieces + Piece(Slot(IFLA_IPTUN_FLOWINFO, WordValue(Big, flowLabel)));
    var limit := if encapLimit.Some? then encapLimit.value else 0xff;
    nlas := nlas + [DefaultNla(IFLA_IPTUN_ENCAP_LIMIT, [limit])];
    pieces := pieces + Piece(Slot(IFLA_IPTUN_ENCAP_LIMIT, Some([encapLimit.GetOr(0xff)])));
    assert nlas == pieces;
    nlas := nlas + [DefaultNla(IFLA_IPTUN_PMTUDISC, [if pmtudisc then 1 else 0])];
    pieces := pieces + Piece(Slot(IFLA_IPTUN_PMTUDISC, Some([FlagByte(pmtudisc)])));
    assert nlas == pieces;
    if link.Some? {
      nlas := nlas + [DefaultNla(IFLA_IPTUN_LINK, U32Bytes(e, link.value))];
    }
    pieces := pieces + Piece(Slot(IFLA_IPTUN_LINK, WordValue(e, link)));
    assert nlas == pieces;
    IptunSlotsEmit(e, local, remote, ttl, tos, flowLabel, encapLimit, pmtudisc, link);
  }

  /** IPIP never carries a flow label, so no FLOWINFO attribute appears. */
  method IptunnelV4Nlas(e: Endian, cfg: IpIpConfig) returns (nlas: seq<DefaultNla>)
    ensures nlas == IptunAttributes(e, Ipv4Octets(cfg.local), Ipv4Octets(cfg.remote), cfg.ttl,
      cfg.tos, None, cfg.encapLimit, cfg.pmtudisc, cfg.link)
  {
    nlas := PushIptunNlas(e, Ipv4Octets(cfg.local), Ipv4Octets(cfg.remote), cfg.ttl, cfg.tos,
      None, cfg.encapLimit, cfg.pmtudisc, cfg.link);
  }

  method IptunnelV6Nlas(e: Endian, cfg: Ip6TnlConfig) returns (nlas: seq<DefaultNla>)
    ensures nlas == IptunAttributes(e, Ipv6Octets(cfg.local), Ipv6Octets(cfg.remote), cfg.hopLimit,
      cfg.trafficClass, cfg.flowLabel, cfg.encapLimit, cfg.pmtudisc, cfg.link)
  {
    nlas := PushIptunNlas(e, Ipv6Octets(cfg.local), Ipv6Octets(cfg.remote), cfg.hopLimit,
      cfg.trafficClass, cfg.flowLabel, cfg.encapLimit, cfg.pmtudisc, cfg.link);
  }
}
