/** The link server: listing interfaces, looking one up by name and reading an
    interface's hardware address, plus the client-side response mappings. The
    kernel's link dump is an input; only replies delivered before the end of
    the stream or an error are seen. */
module Link {
  import opened Common
  import opened Text

  type Octets6 = s: seq<uint8> | |s| == 6 witness [0, 0, 0, 0, 0, 0]

  /** A hardware address; `MacAddr::new` is the constructor itself. */
  datatype MacAddr = MacAddr(inner: Octets6)

  /** `MacAddr::default`: all six bytes zero. */
  function DefaultMac(): (m: MacAddr)
    ensures forall i :: 0 <= i < 6 ==> m.inner[i] == 0
  {
    MacAddr([0, 0, 0, 0, 0, 0])
  }

  /** `Display for MacAddr`: six two-digit lowercase hex bytes separated by ':'. */
  function Display(m: MacAddr): (s: string)
    ensures |s| == 17
    ensures s == HexColon(m.inner)
  {
    var b := m.inner;
    var p := HexParts(b);
    assert p[5..] == [Hex2(b[5])];
    assert p[4..][1..] == p[5..] && p[3..][1..] == p[4..] && p[2..][1..] == p[3..];
    assert p[1..][1..] == p[2..];
    assert Join(p[4..], ':') == Hex2(b[4]) + ":" + Hex2(b[5]);
    assert Join(p[3..], ':') == Hex2(b[3]) + ":" + (Hex2(b[4]) + ":" + Hex2(b[5]));
    assert Join(p[2..], ':') == Hex2(b[2]) + ":" + (Hex2(b[3]) + ":" + Hex2(b[4]) + ":" + Hex2(b[5]));
    assert Join(p[1..], ':') == Hex2(b[1]) + ":" + (Hex2(b[2]) + ":" + Hex2(b[3]) + ":" + Hex2(b[4]) + ":" + Hex2(b[5]));
    Hex2(b[0]) + ":" + Hex2(b[1]) + ":" + Hex2(b[2]) + ":" + Hex2(b[3]) + ":" + Hex2(b[4]) + ":" + Hex2(b[5])
  }

  datatype Interface = Interface(ifName: string, ifId: uint32)

  datatype LinkAttribute = IfName(name: string) | Address(bytes: seq<uint8>) | OtherAttribute

  /** A reply of the link dump: the header's index and the attributes. */
  datatype LinkReply = LinkReply(index: uint32, attributes: seq<LinkAttribute>)

  datatype Request =
    | InterfaceList
    | InterfaceGet(getId: uint32)
    | InterfaceGetByName(ifName: string)
    | MacAddrGet(ifId: uint32)
    | MacAddrSet(setId: uint32, macAddr: MacAddr)

  datatype Response =
    | Success
    | Failed
    | NotImplemented
    | NotFound
    | InterfaceListResponse(interfaces: seq<Interface>)
    | InterfaceResponse(interface: Interface)
    | MacAddrResponse(mac: MacAddr)

  /** What reaches the transport: a dump of all links, or one filtered by name or index. */
  datatype Op = DumpLinks | GetLinkByName(name: string) | GetLinkByIndex(index: uint32)

  // ---------------------------------------------------------------------------
  // Interface list
  // ---------------------------------------------------------------------------

  /** The name a reply carries: its last `IfName` attribute. */
  function LastIfName(attrs: seq<LinkAttribute>): (r: Option<string>)
    ensures r.None? <==> forall k :: 0 <= k < |attrs| ==> !attrs[k].IfName?
    ensures r.Some? ==> exists k :: (0 <= k < |attrs| && attrs[k] == IfName(r.value)
      && forall j :: k < j < |attrs| ==> !attrs[j].IfName?)
  {
    if |attrs| == 0 then None
    else if attrs[|attrs| - 1].IfName? then Some(attrs[|attrs| - 1].name)
    else LastIfName(attrs[..|attrs| - 1])
  }

  /** The interface a reply contributes: none when its index is 0 or it has no name. */
  function EntryOf(reply: LinkReply): seq<Interface> {
    match LastIfName(reply.attributes)
    case Some(name) => if reply.index != 0 then [Interface(name, reply.index)] else []
    case None => []
  }

  /** The interface list of a link dump, in stream order. */
  function InterfacesOf(replies: seq<LinkReply>): (r: seq<Interface>)
    ensures |r| <= |replies|
    ensures forall k :: 0 <= k < |r| ==> r[k].ifId != 0
  {
    if |replies| == 0 then [] else InterfacesOf(replies[..|replies| - 1]) + EntryOf(replies[|replies| - 1])
  }

  /** Listing a dump delivered in two parts lists the parts one after the other. */
  lemma {:induction false} InterfacesOfAppend(a: seq<LinkReply>, b: seq<LinkReply>)
    ensures InterfacesOf(a + b) == InterfacesOf(a) + InterfacesOf(b)
  {
    if |b| == 0 {
      assert a + b == a;
    } else {
      var last := b[|b| - 1];
      assert (a + b)[..|a + b| - 1] == a + b[..|b| - 1];
      InterfacesOfAppend(a, b[..|b| - 1]);
    }
  }

  /** A reply with index 0 or without a name contributes nothing; any other reply
      contributes exactly its index and last name. */
  lemma EntryOfReply(reply: LinkReply)
    ensures InterfacesOf([reply]) == EntryOf(reply)
    ensures reply.index == 0 || LastIfName(reply.attributes).None? ==> InterfacesOf([reply]) == []
    ensures reply.index != 0 && LastIfName(reply.attributes).Some? ==>
      InterfacesOf([reply]) == [Interface(LastIfName(reply.attributes).value, reply.index)]
  {
    assert [reply][..0] == [];
  }

  /** The `InterfaceList` branch: for each reply, remember the last name seen,
      then keep the reply if it has a non-zero index and a name. */
  method ListInterfaces(replies: seq<LinkReply>) returns (interfaces: seq<Interface>)
    ensures interfaces == InterfacesOf(replies)
  {
    interfaces := [];
    var i := 0;
    while i < |replies|
      invariant 0 <= i <= |replies|
      invariant interfaces == InterfacesOf(replies[..i])
    {
      var reply := replies[i];
      var ifName: Option<string> := None;
      var j := 0;
      while j < |reply.attributes|
        invariant 0 <= j <= |reply.attributes|
        invariant ifName == LastIfName(reply.attributes[..j])
      {
        var attr := reply.attributes[j];
        if attr.IfName? {
          ifName := Some(attr.name);
        }
        assert reply.attributes[..j + 1][..j] == reply.attributes[..j];
        j := j + 1;
      }
      assert reply.attributes[..j] == reply.attributes;
      assert replies[..i + 1][..i] == replies[..i];
      if reply.index != 0 && ifName.Some? {
        interfaces := interfaces + [Interface(ifName.value, reply.index)];
      }
      i := i + 1;
    }
    assert replies[..i] == replies;
  }

  // ---------------------------------------------------------------------------
  // Lookup by name
  // ---------------------------------------------------------------------------

  function Indices(replies: seq<LinkReply>): (r: seq<uint32>)
    ensures |r| == |replies| && forall k :: 0 <= k < |r| ==> r[k] == replies[k].index
  {
    seq(|replies|, k requires 0 <= k < |replies| => replies[k].index)
  }

  /** The `InterfaceGetByName` branch's loop: the first reply with a non-zero index. */
  method FirstLinkIndex(replies: seq<LinkReply>) returns (index: Option<uint32>)
    ensures index == FirstNonZero(Indices(replies))
  {
    var i := 0;
    while i < |replies|
      invariant 0 <= i <= |replies|
      invariant FirstNonZero(Indices(replies)) == FirstNonZero(Indices(replies)[i..])
    {
      if replies[i].index != 0 {
        return Some(replies[i].index);
      }
      assert Indices(replies)[i..][1..] == Indices(replies)[i + 1..];
      i := i + 1;
    }
    return None;
  }

  // ---------------------------------------------------------------------------
  // Hardware address
  // ---------------------------------------------------------------------------

  function FirstAddressIn(attrs: seq<LinkAttribute>): (r: Option<seq<uint8>>)
    ensures r.None? <==> forall k :: 0 <= k < |attrs| ==> !attrs[k].Address?
    ensures r.Some? ==> exists k :: (0 <= k < |attrs| && attrs[k] == Address(r.value)
      && forall j :: 0 <= j < k ==> !attrs[j].Address?)
  {
    if |attrs| == 0 then None
    else if attrs[0].Address? then Some(attrs[0].bytes)
    else
      var r := FirstAddressIn(attrs[1..]);
      assert r.Some? ==> exists k :: (0 <= k < |attrs[1..]| && attrs[1..][k] == Address(r.value)
        && forall j :: 0 <= j < k ==> !attrs[1..][j].Address?);
      r
  }

  /** The first `Address` attribute of the dump, in stream order. */
  function FirstAddress(replies: seq<LinkReply>): (r: Option<seq<uint8>>)
    ensures r.None? <==> forall i :: 0 <= i < |replies| ==> FirstAddressIn(replies[i].attributes).None?
    ensures r.Some? ==> exists i :: (0 <= i < |replies| && FirstAddressIn(replies[i].attributes) == r
      && forall j :: 0 <= j < i ==> FirstAddressIn(replies[j].attributes).None?)
  {
    if |replies| == 0 then None
    else match FirstAddressIn(replies[0].attributes)
      case Some(a) => Some(a)
      case None =>
        var r := FirstAddress(replies[1..]);
        assert r.Some? ==> exists i :: (0 <= i < |replies[1..]| && FirstAddressIn(replies[1..][i].attributes) == r
          && forall j :: 0 <= j < i ==> FirstAddressIn(replies[1..][j].attributes).None?);
        r
  }

  /** The `MacAddrGet` branch's loops: the first `Address` attribute of any reply. */
  method FindAddress(replies: seq<LinkReply>) returns (addr: Option<seq<uint8>>)
    ensures addr == FirstAddress(replies)
  {
    var i := 0;
    while i < |replies|
      invariant 0 <= i <= |replies|
      invariant FirstAddress(replies) == FirstAddress(replies[i..])
    {
      var attrs := replies[i].attributes;
      var j := 0;
      while j < |attrs|
        invariant 0 <= j <= |attrs|
        invariant FirstAddressIn(attrs) == FirstAddressIn(attrs[j..])
      {
        if attrs[j].Address? {
          return Some(attrs[j].bytes);
        }
        assert attrs[j..][1..] == attrs[j + 1..];
        j := j + 1;
      }
      assert replies[i..][1..] == replies[i + 1..];
      i := i + 1;
    }
    return None;
  }

  /** `MacAddr::new(addr[0..6].try_into().unwrap_or([0; 6]))` as written: `None`
      stands for the panic of the slice when the address is shorter than six
      bytes; the zero fallback is never taken. */
  function MacFromAddressAsWritten(addr: seq<uint8>): (r: Option<MacAddr>)
    ensures r.None? <==> |addr| < 6
    ensures r.Some? ==> r.value.inner == addr[..6]
  {
    if |addr| < 6 then None else Some(MacAddr(addr[..6]))
  }

  /** An IPIP or GRE tunnel reports its 4-byte IPv4 endpoint as its link-layer
      address; reading its MAC address as written panics. */
  lemma ShortAddressPanics()
    ensures MacFromAddressAsWritten([192, 0, 2, 1]).None?
  {
  }

  /** The evident intent: the first six bytes, or all zeros when the address is
      too short to hold a MAC address. */
  function MacFromAddress(addr: seq<uint8>): (r: MacAddr)
    ensures |addr| >= 6 ==> Some(r) == MacFromAddressAsWritten(addr)
    ensures |addr| < 6 ==> r == DefaultMac()
  {
    if |addr| >= 6 then MacAddr(addr[..6]) else DefaultMac()
  }

  // ---------------------------------------------------------------------------
  // Server
  // ---------------------------------------------------------------------------

  /** One iteration of the server loop against the kernel's reply stream. */
  function Handle(req: Request, replies: Stream<LinkReply>): (r: Handled<Response, Op>)
    ensures req.InterfaceList? ==> r == Handled(InterfaceListResponse(InterfacesOf(replies.items)), [DumpLinks])
    ensures req.InterfaceGetByName? ==> r.ops == [GetLinkByName(req.ifName)]
    ensures req.InterfaceGetByName? && FirstNonZero(Indices(replies.items)).Some? ==>
      r.response == InterfaceResponse(Interface(req.ifName, FirstNonZero(Indices(replies.items)).value))
    ensures req.InterfaceGetByName? && FirstNonZero(Indices(replies.items)).None? ==> r.response == Response.NotFound
    // Index 0 is answered without asking the kernel.
    ensures req.MacAddrGet? && req.ifId == 0 ==> r == Handled(Response.NotFound, [])
    ensures req.MacAddrGet? && req.ifId != 0 ==> r.ops == [GetLinkByIndex(req.ifId)]
    ensures req.MacAddrGet? && req.ifId != 0 ==> (r.response == Response.NotFound <==> FirstAddress(replies.items).None?)
    // The MAC is the first six bytes of the first `Address` attribute in stream order ...
    ensures req.MacAddrGet? && req.ifId != 0 && FirstAddress(replies.items).Some? && |FirstAddress(replies.items).value| >= 6 ==>
      r.response == MacAddrResponse(MacAddr(FirstAddress(replies.items).value[..6]))
    // ... and all zeros for a shorter one, where the code as written panics (see HandleAsWritten).
    ensures req.MacAddrGet? && req.ifId != 0 && FirstAddress(replies.items).Some? && |FirstAddress(replies.items).value| < 6 ==>
      r.response == MacAddrResponse(DefaultMac())
    ensures req.InterfaceGet? || req.MacAddrSet? ==> r == Handled(NotImplemented, [])
    ensures r.response.InterfaceResponse? ==> r.response.interface.ifId != 0
  {
    match req
    case InterfaceGetByName(name) =>
      (match FirstNonZero(Indices(replies.items))
       case Some(index) => Handled(InterfaceResponse(Interface(name, index)), [GetLinkByName(name)])
       case None => Handled(Response.NotFound, [GetLinkByName(name)]))
    case MacAddrGet(ifId) =>
      if ifId == 0 then Handled(Response.NotFound, [])
      else
        (match FirstAddress(replies.items)
         case Some(addr) => Handled(MacAddrResponse(MacFromAddress(addr)), [GetLinkByIndex(ifId)])
         case None => Handled(Response.NotFound, [GetLinkByIndex(ifId)]))
    case InterfaceList =>
      Handled(InterfaceListResponse(InterfacesOf(replies.items)), [DumpLinks])
    case _ => Handled(NotImplemented, [])
  }

  /** The server loop as written: `None` is the panic of `addr[0..6]` on a
      first `Address` attribute shorter than six bytes, which ends the server
      task without a response. Every other request is answered as by `Handle`. */
  function HandleAsWritten(req: Request, replies: Stream<LinkReply>): (r: Option<Handled<Response, Op>>)
    ensures r.None? <==> req.MacAddrGet? && req.ifId != 0 && FirstAddress(replies.items).Some?
                         && |FirstAddress(replies.items).value| < 6
    ensures r.Some? ==> r.value == Handle(req, replies)
  {
    match req
    case MacAddrGet(ifId) =>
      if ifId == 0 then Some(Handled(Response.NotFound, []))
      else
        (match FirstAddress(replies.items)
         case Some(addr) =>
           (match MacFromAddressAsWritten(addr)
            case Some(mac) => Some(Handled(MacAddrResponse(mac), [GetLinkByIndex(ifId)]))
            case None => None)
         case None => Some(Handled(Response.NotFound, [GetLinkByIndex(ifId)])))
    case _ => Some(Handle(req, replies))
  }

  /** The server loop: every request in turn receives `Handle`'s response to
      the kernel's replies for it. */
  method RunServer(requests: seq<Request>, replies: seq<Stream<LinkReply>>) returns (responses: seq<Response>)
    requires |replies| == |requests|
    ensures |responses| == |requests|
    ensures forall i :: 0 <= i < |requests| ==> responses[i] == Handle(requests[i], replies[i]).response
  {
    responses := Serve((q, t) => Handle(q, t).response, requests, replies);
  }

  // ---------------------------------------------------------------------------
  // Client side (`RtnlLinkClient`)
  // ---------------------------------------------------------------------------

  /** `interface_get_by_name`: anything but an interface, NotFound included, is an
      "other"-kind error. */
  function InterfaceGetByNameResult(reply: Result<Response, ErrorKind>): (r: Result<Interface, ErrorKind>)
    ensures r.Ok? <==> reply.Ok? && reply.value.InterfaceResponse?
    ensures r.Ok? ==> r.value == reply.value.interface
    ensures reply.Ok? && !reply.value.InterfaceResponse? ==> r == Err(OtherKind)
    ensures reply.Err? ==> r == Err(reply.error)
  {
    match reply
    case Err(kind) => Err(kind)
    case Ok(response) => if response.InterfaceResponse? then Ok(response.interface) else Err(OtherKind)
  }

  /** `mac_addr_get`: anything but an address is "no address", not an error. */
  function MacAddrGetResult(reply: Result<Response, ErrorKind>): (r: Result<Option<MacAddr>, ErrorKind>)
    ensures r.Err? <==> reply.Err?
    ensures reply.Ok? && reply.value.MacAddrResponse? ==> r == Ok(Some(reply.value.mac))
    ensures reply.Ok? && !reply.value.MacAddrResponse? ==> r == Ok(None)
  {
    match reply
    case Err(kind) => Err(kind)
    case Ok(response) => if response.MacAddrResponse? then Ok(Some(response.mac)) else Ok(None)
  }

  /** `interface_list`: anything but a list is an "other"-kind error. */
  function InterfaceListResult(reply: Result<Response, ErrorKind>): (r: Result<seq<Interface>, ErrorKind>)
    ensures r.Ok? <==> reply.Ok? && reply.value.InterfaceListResponse?
    ensures r.Ok? ==> r.value == reply.value.interfaces
    ensures reply.Ok? && !reply.value.InterfaceListResponse? ==> r == Err(OtherKind)
  {
    match reply
    case Err(kind) => Err(kind)
    case Ok(response) => if response.InterfaceListResponse? then Ok(response.interfaces) else Err(OtherKind)
  }

  /** A MAC lookup on index 0 reaches the caller as "no address". */
  lemma MacOfIndexZero(replies: Stream<LinkReply>)
    ensures MacAddrGetResult(Ok(Handle(MacAddrGet(0), replies).response)) == Ok(None)
  {
  }
}
