/** The address subsystem (`src/address.rs`): listing the IPv4 or IPv6
    addresses of one interface or of all, adding an address, and deleting one
    by an `RTM_DELADDR` message built from the prefix. The v4 and v6 request
    pairs share one definition each, parameterised by the address family. */
module Address {
  import opened Common

  datatype Request =
    | AddrsGet(family: AddrFamily, ifId: uint32)
    | AddrSet(prefix: Net, setId: uint32)
    | AddrDel(target: Net, delId: uint32)

  datatype Response =
    | Success
    | Failed
    | NotImplemented
    | NotFound
    | Ipv4Addrs(v4s: seq<Ipv4Addr>)
    | Ipv6Addrs(v6s: seq<Ipv6Addr>)

  /** The `IFA_*` attributes of an address message that this subsystem reads or writes. */
  datatype AddressAttribute =
    | IfaAddress(addr: IpAddr)
    | IfaLocal(local: IpAddr)
    | IfaBroadcast(broadcast: Ipv4Addr)
    | IfaMulticast(group: Ipv6Addr)
    | IfaOther

  datatype AddressHeader = AddressHeader(family: Family, index: uint32, prefixLen: uint8)

  datatype AddressMessage = AddressMessage(header: AddressHeader, attributes: seq<AddressAttribute>)

  /** What reaches the wire: a dump (filtered to one interface or not), an
      add built by the library from (index, address, length), or a delete
      carrying the message this module builds. */
  datatype Op =
    | GetAddresses(indexFilter: Option<uint32>)
    | AddAddress(addIndex: uint32, addr: IpAddr, prefixLen: nat)
    | DelAddress(message: AddressMessage)

  /** The transport's answers: the outcome of an add or delete, and the dump. */
  datatype Kernel = Kernel(exec: Exec, dump: Stream<AddressMessage>)

  // ---------------------------------------------------------------------------
  // Deletion messages
  // ---------------------------------------------------------------------------

  /** 224.0.0.0/4. */
  predicate IsMulticastV4(a: Ipv4Addr) {
    a >> 28 == 0xE
  }

  /** ff00::/8. */
  predicate IsMulticastV6(a: Ipv6Addr) {
    a / Pow2(120) == 0xff
  }

  /** The broadcast address written for a v4 prefix: every host bit set; a /32
      is its own broadcast (the mask shift would be by the full width). */
  function BroadcastOf(addr: Ipv4Addr, len: nat): (b: Ipv4Addr)
    requires len <= 32
    ensures Contains(IpNet(V4(addr), len), V4(b))
  {
    if len == 32 then addr else addr | HostMask(len)
  }

  lemma AgreeOutsideMask(p: Ipv4Addr, m: Ipv4Addr, x: Ipv4Addr)
    requires (p ^ x) & !m == 0
    ensures x & !m == p & !m
  {
  }

  lemma WithinHostBitsSet(p: Ipv4Addr, m: Ipv4Addr, x: Ipv4Addr)
    requires x & !m == p & !m
    ensures x & (p | m) == x
  {
  }

  /** An address with no bit outside `b`'s is not above it. */
  lemma BitsWithin(x: Ipv4Addr, b: Ipv4Addr)
    requires x & b == x
    ensures x <= b
  {
  }

  /** An address that agrees with `p` outside the host bits `m` is not above
      `p` with every host bit set. */
  lemma BelowHostBitsSet(p: Ipv4Addr, m: Ipv4Addr, x: Ipv4Addr)
    requires (p ^ x) & !m == 0
    ensures x <= p | m
  {
    AgreeOutsideMask(p, m, x);
    WithinHostBitsSet(p, m, x);
    BitsWithin(x, p | m);
  }

  /** The /32 special case agrees with the general formula: its host mask is empty. */
  lemma BroadcastSetsHostBits(addr: Ipv4Addr, len: nat)
    requires len <= 32
    ensures BroadcastOf(addr, len) == addr | HostMask(len)
  {
    if len == 32 {
      assert HostMask(len) == 0;
    }
  }

  /** The broadcast address is the highest address of its prefix. */
  lemma BroadcastIsHighest(addr: Ipv4Addr, len: nat, x: Ipv4Addr)
    requires len <= 32
    requires Contains(IpNet(V4(addr), len), V4(x))
    ensures x <= BroadcastOf(addr, len)
  {
    BroadcastSetsHostBits(addr, len);
    BelowHostBitsSet(addr, HostMask(len), x);
  }

  /** `build_ipv4_address_message`. */
  function BuildIpv4Message(prefix: Net, ifId: uint32): (m: AddressMessage)
    requires prefix.addr.V4?
    ensures m.header == AddressHeader(Inet, ifId, prefix.len)
    ensures m.attributes == [] <==> IsMulticastV4(prefix.addr.v4)
    ensures !IsMulticastV4(prefix.addr.v4) ==>
      m.attributes == [IfaAddress(prefix.addr), IfaLocal(prefix.addr), IfaBroadcast(BroadcastOf(prefix.addr.v4, prefix.len))]
  {
    var a := prefix.addr.v4;
    AddressMessage(
      AddressHeader(Inet, ifId, prefix.len),
      if IsMulticastV4(a) then []
      else [IfaAddress(prefix.addr), IfaLocal(prefix.addr), IfaBroadcast(BroadcastOf(a, prefix.len))])
  }

  /** `build_ipv6_address_message`. */
  function BuildIpv6Message(prefix: Net, ifId: uint32): (m: AddressMessage)
    requires prefix.addr.V6?
    ensures m.header == AddressHeader(Inet6, ifId, prefix.len)
    ensures IsMulticastV6(prefix.addr.v6) ==> m.attributes == [IfaMulticast(prefix.addr.v6)]
    ensures !IsMulticastV6(prefix.addr.v6) ==> m.attributes == [IfaAddress(prefix.addr), IfaLocal(prefix.addr)]
  {
    var a := prefix.addr.v6;
    AddressMessage(
      AddressHeader(Inet6, ifId, prefix.len),
      if IsMulticastV6(a) then [IfaMulticast(a)] else [IfaAddress(prefix.addr), IfaLocal(prefix.addr)])
  }

  function BuildAddressMessage(prefix: Net, ifId: uint32): (m: AddressMessage)
    ensures m.header.family == FamilyOf(prefix.addr)
  {
    if prefix.addr.V4? then BuildIpv4Message(prefix, ifId) else BuildIpv6Message(prefix, ifId)
  }

  /** A deletion names the prefix it was asked for: interface, family and length
      in the header and, unless the address is multicast, the address itself as
      both `IFA_ADDRESS` and `IFA_LOCAL`. */
  lemma DeleteNamesTarget(prefix: Net, ifId: uint32)
    ensures var m := BuildAddressMessage(prefix, ifId);
      && m.header == AddressHeader(FamilyOf(prefix.addr), ifId, prefix.len)
      && (IfaAddress(prefix.addr) in m.attributes <==> !IsMulticast(prefix.addr))
      && (IfaLocal(prefix.addr) in m.attributes <==> !IsMulticast(prefix.addr))
  {
  }

  predicate IsMulticast(a: IpAddr) {
    match a
    case V4(x) => IsMulticastV4(x)
    case V6(x) => IsMulticastV6(x)
  }

  /** A v4 multicast prefix is deleted by a message that names no address at all. */
  lemma MulticastV4DeleteIsBare(prefix: Net, ifId: uint32)
    requires prefix.addr.V4? && IsMulticastV4(prefix.addr.v4)
    ensures BuildAddressMessage(prefix, ifId).attributes == []
  {
  }

  lemma BroadcastExamples()
    ensures BroadcastOf(0xC000_0201, 24) == 0xC000_02FF
    ensures BroadcastOf(0xC000_0201, 0) == 0xFFFF_FFFF
    ensures BroadcastOf(0xC000_0201, 31) == 0xC000_0201
    ensures BroadcastOf(0xC000_0200, 31) == 0xC000_0201
    ensures BroadcastOf(0xC000_0201, 32) == 0xC000_0201
  {
  }

  // ---------------------------------------------------------------------------
  // Listing
  // ---------------------------------------------------------------------------

  /** The `IFA_ADDRESS` values of `fam` among the attributes, in order. */
  function AddressesIn(fam: AddrFamily, attrs: seq<AddressAttribute>): (r: seq<IpAddr>)
    ensures forall k :: 0 <= k < |r| ==> FamilyOf(r[k]) == fam
    ensures |r| <= |attrs|
  {
    if |attrs| == 0 then []
    else
      var last := attrs[|attrs| - 1];
      AddressesIn(fam, attrs[..|attrs| - 1]) +
        (if last.IfaAddress? && FamilyOf(last.addr) == fam then [last.addr] else [])
  }

  /** The addresses the server collects from a dump: messages of another family
      are skipped whole, then the `IFA_ADDRESS` values of the family, in order. */
  function AddressesOf(fam: AddrFamily, msgs: seq<AddressMessage>): (r: seq<IpAddr>)
    ensures forall k :: 0 <= k < |r| ==> FamilyOf(r[k]) == fam
  {
    if |msgs| == 0 then []
    else
      var last := msgs[|msgs| - 1];
      AddressesOf(fam, msgs[..|msgs| - 1]) +
        (if last.header.family == fam then AddressesIn(fam, last.attributes) else [])
  }

  lemma {:induction false} AddressesInMembers(fam: AddrFamily, attrs: seq<AddressAttribute>, a: IpAddr)
    ensures a in AddressesIn(fam, attrs) <==> IfaAddress(a) in attrs && FamilyOf(a) == fam
  {
    if |attrs| > 0 {
      var front := attrs[..|attrs| - 1];
      AddressesInMembers(fam, front, a);
      assert attrs == front + [attrs[|attrs| - 1]];
    }
  }

  /** An address is listed exactly when a message of the family carries it as
      `IFA_ADDRESS`. */
  lemma {:induction false} AddressesOfMembers(fam: AddrFamily, msgs: seq<AddressMessage>, a: IpAddr)
    ensures a in AddressesOf(fam, msgs) <==>
      (exists k :: 0 <= k < |msgs| && msgs[k].header.family == fam && IfaAddress(a) in msgs[k].attributes)
        && FamilyOf(a) == fam
  {
    if |msgs| > 0 {
      var n := |msgs| - 1;
      AddressesOfMembers(fam, msgs[..n], a);
      AddressesInMembers(fam, msgs[n].attributes, a);
      if a in AddressesOf(fam, msgs) && a !in AddressesOf(fam, msgs[..n]) {
        assert msgs[n].header.family == fam && IfaAddress(a) in msgs[n].attributes;
      }
      if exists k :: 0 <= k < |msgs| && msgs[k].header.family == fam && IfaAddress(a) in msgs[k].attributes {
        var k :| 0 <= k < |msgs| && msgs[k].header.family == fam && IfaAddress(a) in msgs[k].attributes;
        if k < n {
          assert msgs[..n][k] == msgs[k];
        }
      }
    }
  }

  /** Listing a dump that arrives in two parts lists the parts one after the other. */
  lemma {:induction false} AddressesOfAppend(fam: AddrFamily, xs: seq<AddressMessage>, ys: seq<AddressMessage>)
    ensures AddressesOf(fam, xs + ys) == AddressesOf(fam, xs) + AddressesOf(fam, ys)
  {
    if |ys| == 0 {
      assert xs + ys == xs;
    } else {
      var n := |ys| - 1;
      assert (xs + ys)[..|xs + ys| - 1] == xs + ys[..n];
      AddressesOfAppend(fam, xs, ys[..n]);
    }
  }

  /** The two nested loops of the dump handler: every message of the family in
      stream order, every `IFA_ADDRESS` of it in attribute order. */
  method CollectAddresses(fam: AddrFamily, msgs: seq<AddressMessage>) returns (addrs: seq<IpAddr>)
    ensures addrs == AddressesOf(fam, msgs)
  {
    addrs := [];
    var i := 0;
    while i < |msgs|
      invariant 0 <= i <= |msgs|
      invariant addrs == AddressesOf(fam, msgs[..i])
    {
      var msg := msgs[i];
      assert msgs[..i + 1][..i] == msgs[..i];
      if msg.header.family == fam {
        var attrs := msg.attributes;
        for j := 0 to |attrs|
          invariant addrs == AddressesOf(fam, msgs[..i]) + AddressesIn(fam, attrs[..j])
        {
          assert attrs[..j + 1][..j] == attrs[..j];
          if attrs[j].IfaAddress? && FamilyOf(attrs[j].addr) == fam {
            addrs := addrs + [attrs[j].addr];
          }
        }
        assert attrs[..|attrs|] == attrs;
      }
      i := i + 1;
    }
    assert msgs[..|msgs|] == msgs;
  }

  function V4s(addrs: seq<IpAddr>): (r: seq<Ipv4Addr>)
    requires forall k :: 0 <= k < |addrs| ==> addrs[k].V4?
    ensures |r| == |addrs| && forall k :: 0 <= k < |r| ==> V4(r[k]) == addrs[k]
  {
    seq(|addrs|, k requires 0 <= k < |addrs| => addrs[k].v4)
  }

  function V6s(addrs: seq<IpAddr>): (r: seq<Ipv6Addr>)
    requires forall k :: 0 <= k < |addrs| ==> addrs[k].V6?
    ensures |r| == |addrs| && forall k :: 0 <= k < |r| ==> V6(r[k]) == addrs[k]
  {
    seq(|addrs|, k requires 0 <= k < |addrs| => addrs[k].v6)
  }

  /** The listing response: the collected addresses as the family's list. A
      stream that fails part-way ends the listing without a sign of error. */
  function ListResponse(fam: AddrFamily, dump: Stream<AddressMessage>): (r: Response)
    ensures fam == Inet ==> r.Ipv4Addrs? && |r.v4s| == |AddressesOf(fam, dump.items)|
    ensures fam == Inet6 ==> r.Ipv6Addrs? && |r.v6s| == |AddressesOf(fam, dump.items)|
  {
    var addrs := AddressesOf(fam, dump.items);
    if fam == Inet then Ipv4Addrs(V4s(addrs)) else Ipv6Addrs(V6s(addrs))
  }

  // ---------------------------------------------------------------------------
  // Add and delete outcomes
  // ---------------------------------------------------------------------------

  /** Adding: an address that already exists counts as added. */
  function AddResponse(exec: Exec): (r: Response)
    ensures r == Success <==> exec == ExecOk || exec == ExecErr(NetlinkError(AlreadyExists))
    ensures r == Success || r == Failed
  {
    match exec
    case ExecOk => Success
    case ExecErr(NetlinkError(AlreadyExists)) => Success
    case ExecErr(_) => Failed
  }

  /** Deleting: a kernel "address not available" or "not found" is NotFound. */
  function DelResponse(exec: Exec): (r: Response)
    ensures r == Success <==> exec == ExecOk
    ensures r == Response.NotFound <==>
      exec == ExecErr(NetlinkError(AddrNotAvailable)) || exec == ExecErr(NetlinkError(ErrorKind.NotFound))
    ensures r == Success || r == Response.NotFound || r == Failed
  {
    match exec
    case ExecOk => Success
    case ExecErr(NetlinkError(kind)) =>
      if kind == AddrNotAvailable || kind == ErrorKind.NotFound then Response.NotFound else Failed
    case ExecErr(OtherError) => Failed
  }

  /** One iteration of the address server loop. */
  function Handle(req: Request, k: Kernel): (h: Handled<Response, Op>)
    ensures req.AddrsGet? ==> h.ops == [GetAddresses(if req.ifId == 0 then None else Some(req.ifId))]
    ensures req.AddrsGet? && req.family == Inet ==> h.response.Ipv4Addrs?
    ensures req.AddrsGet? && req.family == Inet6 ==> h.response.Ipv6Addrs?
    ensures req.AddrSet? && req.setId == 0 ==> h == Handled(Failed, [])
    ensures req.AddrDel? && req.delId == 0 ==> h == Handled(Failed, [])
    ensures req.AddrSet? && req.setId != 0 ==> h.ops == [AddAddress(req.setId, req.prefix.addr, req.prefix.len)]
    ensures req.AddrDel? && req.delId != 0 ==> h.ops == [DelAddress(BuildAddressMessage(req.target, req.delId))]
    ensures req.AddrsGet? ==> h.response == ListResponse(req.family, k.dump)
    ensures req.AddrSet? && req.setId != 0 ==> h.response == AddResponse(k.exec)
    ensures req.AddrDel? && req.delId != 0 ==> h.response == DelResponse(k.exec)
    ensures h.response == Success ==> !req.AddrsGet? && (k.exec == ExecOk || req.AddrSet?)
    ensures h.response == Response.NotFound ==> req.AddrDel? && k.exec.ExecErr?
    ensures h.response != NotImplemented
  {
    match req
    case AddrsGet(fam, ifId) =>
      Handled(ListResponse(fam, k.dump), [GetAddresses(if ifId == 0 then None else Some(ifId))])
    case AddrSet(prefix, ifId) =>
      if ifId == 0 then Handled(Failed, [])
      else Handled(AddResponse(k.exec), [AddAddress(ifId, prefix.addr, prefix.len)])
    case AddrDel(prefix, ifId) =>
      if ifId == 0 then Handled(Failed, [])
      else Handled(DelResponse(k.exec), [DelAddress(BuildAddressMessage(prefix, ifId))])
  }

  /** The server answers a listing with exactly the addresses `AddressesOf` names. */
  lemma ListingIsCollected(fam: AddrFamily, ifId: uint32, k: Kernel)
    ensures var r := Handle(AddrsGet(fam, ifId), k).response;
      && (r.Ipv4Addrs? ==> forall j :: 0 <= j < |r.v4s| ==> V4(r.v4s[j]) == AddressesOf(fam, k.dump.items)[j])
      && (r.Ipv6Addrs? ==> forall j :: 0 <= j < |r.v6s| ==> V6(r.v6s[j]) == AddressesOf(fam, k.dump.items)[j])
  {
  }

  // ---------------------------------------------------------------------------
  // Client side
  // ---------------------------------------------------------------------------

  /** `ipv4_addrs_get` / `ipv6_addrs_get`: no interface is sent as index 0. */
  function AddrsGetRequest(fam: AddrFamily, ifId: Option<uint32>): (r: Request)
    ensures r.AddrsGet? && r.family == fam
    ensures r.ifId == 0 <==> ifId.None? || ifId == Some(0)
  {
    AddrsGet(fam, ifId.GetOr(0))
  }

  /** Asking for no interface and asking for interface 0 are the same unfiltered dump. */
  lemma NoInterfaceMeansAll(fam: AddrFamily, ifId: Option<uint32>, k: Kernel)
    ensures Handle(AddrsGetRequest(fam, ifId), k).ops ==
      [GetAddresses(if ifId.None? || ifId == Some(0) then None else ifId)]
  {
  }

  /** The client of a listing accepts only the list of the family it asked for. */
  function Ipv4AddrsResult(reply: Result<Response, ErrorKind>): (r: Result<seq<Ipv4Addr>, ErrorKind>)
    ensures r.Ok? <==> reply.Ok? && reply.value.Ipv4Addrs?
    ensures r.Ok? ==> r.value == reply.value.v4s
    ensures reply.Ok? && !reply.value.Ipv4Addrs? ==> r == Err(OtherKind)
  {
    match reply
    case Err(kind) => Err(kind)
    case Ok(response) => if response.Ipv4Addrs? then Ok(response.v4s) else Err(OtherKind)
  }

  function Ipv6AddrsResult(reply: Result<Response, ErrorKind>): (r: Result<seq<Ipv6Addr>, ErrorKind>)
    ensures r.Ok? <==> reply.Ok? && reply.value.Ipv6Addrs?
    ensures r.Ok? ==> r.value == reply.value.v6s
    ensures reply.Ok? && !reply.value.Ipv6Addrs? ==> r == Err(OtherKind)
  {
    match reply
    case Err(kind) => Err(kind)
    case Ok(response) => if response.Ipv6Addrs? then Ok(response.v6s) else Err(OtherKind)
  }

  /** `handle_basic_response`: Success is the only good answer; the error kind
      tells NotImplemented (Unsupported) and NotFound apart from the rest. */
  function HandleBasicResponse(reply: Result<Response, ErrorKind>): (r: Result<(), ErrorKind>)
    ensures r.Ok? <==> reply == Ok(Success)
    ensures reply == Ok(NotImplemented) ==> r == Err(Unsupported)
    ensures reply == Ok(Response.NotFound) ==> r == Err(ErrorKind.NotFound)
    ensures reply.Ok? && (reply.value == Failed || reply.value.Ipv4Addrs? || reply.value.Ipv6Addrs?) ==> r == Err(OtherKind)
    ensures reply.Err? ==> r == Err(reply.error)
  {
    match reply
    case Err(kind) => Err(kind)
    case Ok(response) =>
      if response == Success then Ok(())
      else if response == NotImplemented then Err(Unsupported)
      else if response == Response.NotFound then Err(ErrorKind.NotFound)
      else Err(OtherKind)
  }

  /** Adding an address the interface already has succeeds for the caller. */
  lemma AddIsIdempotent(prefix: Net, ifId: uint32, dump: Stream<AddressMessage>)
    requires ifId != 0
    ensures HandleBasicResponse(Ok(Handle(AddrSet(prefix, ifId), Kernel(ExecErr(NetlinkError(AlreadyExists)), dump)).response))
      == Ok(())
  {
  }

  /** Deleting an address the interface does not have is NotFound for the caller. */
  lemma DeleteMissingIsNotFound(prefix: Net, ifId: uint32, dump: Stream<AddressMessage>)
    requires ifId != 0
    ensures HandleBasicResponse(Ok(Handle(AddrDel(prefix, ifId), Kernel(ExecErr(NetlinkError(AddrNotAvailable)), dump)).response))
      == Err(ErrorKind.NotFound)
  {
  }

  /** Interface 0 is refused before the kernel is asked, whatever it would say. */
  lemma IndexZeroRefused(prefix: Net, k: Kernel)
    ensures HandleBasicResponse(Ok(Handle(AddrSet(prefix, 0), k).response)) == Err(OtherKind)
    ensures HandleBasicResponse(Ok(Handle(AddrDel(prefix, 0), k).response)) == Err(OtherKind)
  {
  }
}
