/** The virtual-interface server: creating, reconfiguring and deleting tunnel and
    VLAN links, and resolving a link's index by name. Each request becomes at
    most one link message; the kernel's answer is an input. */
module VirtualInterface {
  import opened Common
  import opened Nla
  import opened Tunnel

  datatype VlanConfig = VlanConfig(baseIfindex: Option<uint32>, vlanId: Option<uint16>)

  datatype Kind =
    | Gre(gre: GreConfig)
    | Gretap(gretap: GreConfig)
    | Ip6Gre(ip6gre: Gre6Config)
    | Ip6Gretap(ip6gretap: Gre6Config)
    | IpIp(ipip: IpIpConfig)
    | Ip6Tnl(ip6tnl: Ip6TnlConfig)
    | Vlan(vlan: VlanConfig)

  datatype Spec = Spec(name: string, kind: Kind, adminUp: bool)
  datatype Update = Update(ifId: uint32, newName: Option<string>, kind: Kind, adminUp: Option<bool>)
  datatype Delete = ByIndex(index: uint32) | ByName(name: string)

  datatype Request =
    | Create(spec: Spec)
    | Configure(update: Update)
    | DeleteLink(delete: Delete)
    | GetIndexByName(ifName: string)

  datatype Response = Success | Failed | NotFound | Index(index: uint32)

  /** `IFLA_INFO_KIND` as the link builder names it. */
  datatype InfoKind = GreTun | GreTap | GreTun6 | GreTap6 | IpTun | VlanKind | OtherInfoKind(name: string)

  /** `IFLA_INFO_DATA`: GRE attribute lists, raw encoded attribute bytes, or VLAN ids. */
  datatype InfoData =
    | GreTunData(greTun: seq<DefaultNla>)
    | GreTapData(greTap: seq<DefaultNla>)
    | GreTun6Data(greTun6: seq<DefaultNla>)
    | GreTap6Data(greTap6: seq<DefaultNla>)
    | RawData(bytes: seq<uint8>)
    | VlanData(ids: seq<uint16>)

  /** What the link builder is told: the kind, the index (0 on create), an
      optional name, an optional administrative state, the parent link and the
      kind-specific data. */
  datatype LinkMessage = LinkMessage(
    infoKind: InfoKind, index: uint32, name: Option<string>, up: Option<bool>,
    link: Option<uint32>, infoData: InfoData)

  /** Why a create request was refused before anything was built. */
  datatype CreateError = MissingParent | MissingVlanId

  /** What reaches the transport. */
  datatype Op = AddLink(added: LinkMessage) | SetLink(changed: LinkMessage) | DelLink(deleted: uint32) | GetLinksByName(query: string)

  /** The kernel's answers to one request: the outcome of the add, set or delete,
      and the link dump of a lookup by name (only the header indices matter). */
  datatype Kernel = Kernel(exec: Exec, links: Stream<uint32>)

  // ---------------------------------------------------------------------------
  // Pure helpers
  // ---------------------------------------------------------------------------

  /** `validate_create_kind`: a VLAN needs a parent (checked first) and an id;
      every tunnel kind passes. */
  function ValidateCreateKind(kind: Kind): (r: Result<(), CreateError>)
    ensures r.Err? <==> kind.Vlan? && (kind.vlan.baseIfindex.None? || kind.vlan.vlanId.None?)
    ensures r == Err(MissingParent) <==> kind.Vlan? && kind.vlan.baseIfindex.None?
  {
    match kind
    case Vlan(cfg) =>
      if cfg.baseIfindex.None? then Err(MissingParent)
      else if cfg.vlanId.None? then Err(MissingVlanId)
      else Ok(())
    case _ => Ok(())
  }

  /** `virtual_interface_kind_to_info_kind`. */
  function KindToInfoKind(kind: Kind): (r: InfoKind)
    ensures r.OtherInfoKind? <==> kind.Ip6Tnl?
    ensures kind.Ip6Tnl? ==> r == OtherInfoKind("ip6tnl")
  {
    match kind
    case Gre(_) => GreTun
    case Gretap(_) => GreTap
    case Ip6Gre(_) => GreTun6
    case Ip6Gretap(_) => GreTap6
    case IpIp(_) => IpTun
    case Ip6Tnl(_) => OtherInfoKind("ip6tnl")
    case Vlan(_) => VlanKind
  }

  predicate SameVariant(a: Kind, b: Kind) {
    a.Gre? == b.Gre? && a.Gretap? == b.Gretap? && a.Ip6Gre? == b.Ip6Gre?
    && a.Ip6Gretap? == b.Ip6Gretap? && a.IpIp? == b.IpIp? && a.Ip6Tnl? == b.Ip6Tnl?
    && a.Vlan? == b.Vlan?
  }

  /** Different kinds of interface are announced under different info kinds. */
  lemma InfoKindDistinguishesKinds(a: Kind, b: Kind)
    ensures KindToInfoKind(a) == KindToInfoKind(b) <==> SameVariant(a, b)
  {
  }

  /** `virtual_interface_link`: the tunnel's underlying link, or the VLAN's parent;
      a VLAN that passed validation always has one. */
  function VirtualInterfaceLink(kind: Kind): (r: Option<uint32>)
    ensures kind.Vlan? ==> r == kind.vlan.baseIfindex
    ensures kind.Vlan? && ValidateCreateKind(kind).Ok? ==> r.Some?
  {
    match kind
    case Gre(cfg) => cfg.link
    case Gretap(cfg) => cfg.link
    case Ip6Gre(cfg) => cfg.link
    case Ip6Gretap(cfg) => cfg.link
    case IpIp(cfg) => cfg.link
    case Ip6Tnl(cfg) => cfg.link
    case Vlan(cfg) => cfg.baseIfindex
  }

  /** The GRE list of the GRE kinds, as the info-data wrapper carries it. */
  predicate DataMatchesKind(kind: Kind, data: InfoData) {
    match kind
    case Gre(_) => data.GreTunData?
    case Gretap(_) => data.GreTapData?
    case Ip6Gre(_) => data.GreTun6Data?
    case Ip6Gretap(_) => data.GreTap6Data?
    case IpIp(_) => data.RawData?
    case Ip6Tnl(_) => data.RawData?
    case Vlan(_) => data.VlanData?
  }

  /** `gre_nlas` of a GRE or GRETAP configuration. */
  function GreV4Attributes(e: Endian, cfg: GreConfig): seq<DefaultNla> {
    GreAttributes(e, Ipv4Octets(cfg.local), Ipv4Octets(cfg.remote), cfg.ttl, cfg.tos, cfg.key,
      cfg.encapLimit, cfg.pmtudisc, cfg.ignoreDf, cfg.link)
  }

  /** `gre6_nlas` of an IP6GRE or IP6GRETAP configuration. */
  function GreV6Attributes(e: Endian, cfg: Gre6Config): seq<DefaultNla> {
    GreAttributes(e, Ipv6Octets(cfg.local), Ipv6Octets(cfg.remote), cfg.hopLimit, cfg.trafficClass,
      cfg.key, cfg.encapLimit, cfg.pmtudisc, cfg.ignoreDf, cfg.link)
  }

  function IpIpAttributes(e: Endian, cfg: IpIpConfig): seq<DefaultNla> {
    IptunAttributes(e, Ipv4Octets(cfg.local), Ipv4Octets(cfg.remote), cfg.ttl, cfg.tos, None,
      cfg.encapLimit, cfg.pmtudisc, cfg.link)
  }

  function Ip6TnlAttributes(e: Endian, cfg: Ip6TnlConfig): seq<DefaultNla> {
    IptunAttributes(e, Ipv6Octets(cfg.local), Ipv6Octets(cfg.remote), cfg.hopLimit,
      cfg.trafficClass, cfg.flowLabel, cfg.encapLimit, cfg.pmtudisc, cfg.link)
  }

  /** No IP-in-IP attribute value comes near the 16-bit length limit. */
  lemma IptunValuesFit(r: seq<DefaultNla>, local: seq<uint8>, remote: seq<uint8>)
    requires |local| <= 16 && |remote| <= 16
    requires forall k :: 0 <= k < |r| ==> |r[k].value| <= 4 || r[k].value == local || r[k].value == remote
    ensures forall k :: 0 <= k < |r| ==> |r[k].value| + NLA_HEADER_LEN < 0x1_0000
  {
  }

  /** `build_info_data`, which never fails: GRE kinds carry their attribute list,
      IPIP and ip6tnl their encoded bytes (which the kernel's attribute walk reads
      back as the list), and a VLAN its id if one was given. */
  function BuildInfoData(e: Endian, kind: Kind): (r: InfoData)
    ensures DataMatchesKind(kind, r)
    ensures kind.Gre? ==> r == GreTunData(GreV4Attributes(e, kind.gre))
    ensures kind.Gretap? ==> r == GreTapData(GreV4Attributes(e, kind.gretap))
    ensures kind.Ip6Gre? ==> r == GreTun6Data(GreV6Attributes(e, kind.ip6gre))
    ensures kind.Ip6Gretap? ==> r == GreTap6Data(GreV6Attributes(e, kind.ip6gretap))
    ensures kind.IpIp? ==> ParseNlas(e, r.bytes) == Some(IpIpAttributes(e, kind.ipip))
    ensures kind.Ip6Tnl? ==> ParseNlas(e, r.bytes) == Some(Ip6TnlAttributes(e, kind.ip6tnl))
    ensures kind.Vlan? ==> |r.ids| <= 1 && (r.ids == [] <==> kind.vlan.vlanId.None?)
    ensures kind.Vlan? && kind.vlan.vlanId.Some? ==> r.ids == [kind.vlan.vlanId.value]
  {
    match kind
    case Gre(cfg) => GreTunData(GreV4Attributes(e, cfg))
    case Gretap(cfg) => GreTapData(GreV4Attributes(e, cfg))
    case Ip6Gre(cfg) => GreTun6Data(GreV6Attributes(e, cfg))
    case Ip6Gretap(cfg) => GreTap6Data(GreV6Attributes(e, cfg))
    case IpIp(cfg) =>
      var nlas := IpIpAttributes(e, cfg);
      IptunValuesFit(nlas, Ipv4Octets(cfg.local), Ipv4Octets(cfg.remote));
      EncodeParseRoundTrip(e, nlas);
      RawData(EncodedNlas(e, nlas))
    case Ip6Tnl(cfg) =>
      var nlas := Ip6TnlAttributes(e, cfg);
      IptunValuesFit(nlas, Ipv6Octets(cfg.local), Ipv6Octets(cfg.remote));
      EncodeParseRoundTrip(e, nlas);
      RawData(EncodedNlas(e, nlas))
    case Vlan(cfg) =>
      VlanData(if cfg.vlanId.Some? then [cfg.vlanId.value] else [])
  }

  /** The LINK attribute a tunnel carries for the link `link`, if any. */
  function LinkAttribute(e: Endian, link: Option<uint32>): Option<seq<uint8>> {
    if link.Some? then Some(U32Bytes(e, link.value)) else None
  }

  /** The link a message is attached to and the tunnel's own LINK attribute
      agree: present together, the attribute holding the index in the
      machine's byte order. */
  lemma LinkMatchesInfoData(e: Endian, kind: Kind)
    ensures kind.Gre? ==> Find(GreV4Attributes(e, kind.gre), IFLA_GRE_LINK) == LinkAttribute(e, VirtualInterfaceLink(kind))
    ensures kind.Gretap? ==> Find(GreV4Attributes(e, kind.gretap), IFLA_GRE_LINK) == LinkAttribute(e, VirtualInterfaceLink(kind))
    ensures kind.Ip6Gre? ==> Find(GreV6Attributes(e, kind.ip6gre), IFLA_GRE_LINK) == LinkAttribute(e, VirtualInterfaceLink(kind))
    ensures kind.Ip6Gretap? ==> Find(GreV6Attributes(e, kind.ip6gretap), IFLA_GRE_LINK) == LinkAttribute(e, VirtualInterfaceLink(kind))
    ensures kind.IpIp? ==> Find(IpIpAttributes(e, kind.ipip), IFLA_IPTUN_LINK) == LinkAttribute(e, VirtualInterfaceLink(kind))
    ensures kind.Ip6Tnl? ==> Find(Ip6TnlAttributes(e, kind.ip6tnl), IFLA_IPTUN_LINK) == LinkAttribute(e, VirtualInterfaceLink(kind))
  {
  }

  /** `build_create_message`: validation comes first and a refused kind builds
      nothing; otherwise a new link (index 0) with the requested name, brought up
      only when asked, attached to the kind's parent link. */
  function BuildCreateMessage(e: Endian, spec: Spec): (r: Result<LinkMessage, CreateError>)
    ensures r.Err? <==> ValidateCreateKind(spec.kind).Err?
    ensures r.Err? ==> r.error == ValidateCreateKind(spec.kind).error
    ensures r.Ok? ==> r.value.index == 0 && r.value.name == Some(spec.name)
    ensures r.Ok? ==> r.value.infoKind == KindToInfoKind(spec.kind) && DataMatchesKind(spec.kind, r.value.infoData)
    ensures r.Ok? ==> (r.value.up == Some(true) <==> spec.adminUp) && r.value.up != Some(false)
    ensures r.Ok? && spec.kind.Vlan? ==> r.value.link == spec.kind.vlan.baseIfindex && r.value.link.Some?
    ensures r.Ok? ==> r.value.infoData == BuildInfoData(e, spec.kind) && r.value.link == VirtualInterfaceLink(spec.kind)
  {
    match ValidateCreateKind(spec.kind)
    case Err(err) => Err(err)
    case Ok(_) =>
      Ok(LinkMessage(KindToInfoKind(spec.kind), 0, Some(spec.name),
        if spec.adminUp then Some(true) else None,
        VirtualInterfaceLink(spec.kind), BuildInfoData(e, spec.kind)))
  }

  /** `build_update_message`, which never fails: addresses the link by index and
      changes the name and the administrative state only when given. */
  function BuildUpdateMessage(e: Endian, update: Update): (r: LinkMessage)
    ensures r.index == update.ifId && r.name == update.newName && r.up == update.adminUp
    ensures r.infoKind == KindToInfoKind(update.kind) && DataMatchesKind(update.kind, r.infoData)
    ensures r.infoData == BuildInfoData(e, update.kind) && r.link == VirtualInterfaceLink(update.kind)
  {
    LinkMessage(KindToInfoKind(update.kind), update.ifId, update.newName, update.adminUp,
      VirtualInterfaceLink(update.kind), BuildInfoData(e, update.kind))
  }

  /** `netlink_error_to_response`: only a not-found kernel error is NotFound. */
  function NetlinkErrorToResponse(kind: ErrorKind): (r: Response)
    ensures r == Response.NotFound <==> kind == ErrorKind.NotFound
    ensures r == Response.NotFound || r == Failed
  {
    if kind == ErrorKind.NotFound then Response.NotFound else Failed
  }

  /** The response to an add, set or delete: success, a kernel error mapped by
      its kind, or Failed for any other transport error. */
  function ExecResponse(exec: Exec): (r: Response)
    ensures r == Success <==> exec.ExecOk?
    ensures r == Response.NotFound <==> exec == ExecErr(NetlinkError(ErrorKind.NotFound))
    ensures !r.Index?
  {
    match exec
    case ExecOk => Success
    case ExecErr(NetlinkError(kind)) => NetlinkErrorToResponse(kind)
    case ExecErr(OtherError) => Failed
  }

  // ---------------------------------------------------------------------------
  // Server
  // ---------------------------------------------------------------------------

  /** `resolve_index_by_name`: the first reply with a non-zero index; a stream
      error ends the search like the end of the stream. */
  method ResolveIndexByName(links: Stream<uint32>) returns (index: Option<uint32>)
    ensures index == FirstNonZero(links.items)
  {
    var i := 0;
    while i < |links.items|
      invariant 0 <= i <= |links.items|
      invariant FirstNonZero(links.items) == FirstNonZero(links.items[i..])
    {
      if links.items[i] != 0 {
        return Some(links.items[i]);
      }
      assert links.items[i..][1..] == links.items[i + 1..];
      i := i + 1;
    }
    return None;
  }

  /** One iteration of the server loop. */
  function Handle(e: Endian, req: Request, k: Kernel): (r: Handled<Response, Op>)
    // A refused create never reaches the transport.
    ensures req.Create? && ValidateCreateKind(req.spec.kind).Err? ==> r == Handled(Failed, [])
    ensures req.Create? && ValidateCreateKind(req.spec.kind).Ok? ==>
      r.ops == [AddLink(BuildCreateMessage(e, req.spec).value)] && r.response == ExecResponse(k.exec)
    ensures req.Configure? ==> r.ops == [SetLink(BuildUpdateMessage(e, req.update))] && r.response == ExecResponse(k.exec)
    // Deleting by index sends the index as given, 0 included.
    ensures req.DeleteLink? && req.delete.ByIndex? ==>
      r.ops == [DelLink(req.delete.index)] && r.response == ExecResponse(k.exec)
    ensures req.DeleteLink? && req.delete.ByName? && FirstNonZero(k.links.items).None? ==>
      r == Handled(Response.NotFound, [GetLinksByName(req.delete.name)])
    ensures req.DeleteLink? && req.delete.ByName? && FirstNonZero(k.links.items).Some? ==>
      r.ops == [GetLinksByName(req.delete.name), DelLink(FirstNonZero(k.links.items).value)]
      && r.response == ExecResponse(k.exec)
    // A name lookup sends one dump and answers its first non-zero index.
    ensures req.GetIndexByName? ==> r == Handled(
      if FirstNonZero(k.links.items).Some? then Index(FirstNonZero(k.links.items).value) else Response.NotFound,
      [GetLinksByName(req.ifName)])
    ensures r.response.Index? <==> req.GetIndexByName? && FirstNonZero(k.links.items).Some?
    ensures r.response.Index? ==> r.response.index != 0
    ensures r.response == Success ==> k.exec == ExecOk && |r.ops| >= 1
  {
    match req
    case Create(spec) =>
      (match BuildCreateMessage(e, spec)
       case Err(_) => Handled(Failed, [])
       case Ok(msg) => Handled(ExecResponse(k.exec), [AddLink(msg)]))
    case Configure(update) =>
      Handled(ExecResponse(k.exec), [SetLink(BuildUpdateMessage(e, update))])
    case DeleteLink(ByIndex(index)) =>
      Handled(ExecResponse(k.exec), [DelLink(index)])
    case DeleteLink(ByName(name)) =>
      (match FirstNonZero(k.links.items)
       case None => Handled(Response.NotFound, [GetLinksByName(name)])
       case Some(index) => Handled(ExecResponse(k.exec), [GetLinksByName(name), DelLink(index)]))
    case GetIndexByName(name) =>
      (match FirstNonZero(k.links.items)
       case None => Handled(Response.NotFound, [GetLinksByName(name)])
       case Some(index) => Handled(Index(index), [GetLinksByName(name)]))
  }

  // ---------------------------------------------------------------------------
  // Client side
  // ---------------------------------------------------------------------------

  /** `handle_basic_response`: only Success is Ok; NotFound keeps its kind, and
      everything else, an index included, is an "other" error. */
  function HandleBasicResponse(reply: Result<Response, ErrorKind>): (r: Result<(), ErrorKind>)
    ensures r.Ok? <==> reply == Ok(Success)
    ensures reply.Ok? && reply.value == Response.NotFound ==> r == Err(ErrorKind.NotFound)
    ensures reply.Ok? && (reply.value == Failed || reply.value.Index?) ==> r == Err(OtherKind)
    ensures reply.Err? ==> r == Err(reply.error)
  {
    match reply
    case Err(kind) => Err(kind)
    case Ok(response) =>
      if response == Success then Ok(())
      else if response == Response.NotFound then Err(ErrorKind.NotFound)
      else Err(OtherKind)
  }

  /** `get_index_by_name` on the client. */
  function GetIndexByNameResult(reply: Result<Response, ErrorKind>): (r: Result<uint32, ErrorKind>)
    ensures r.Ok? <==> reply.Ok? && reply.value.Index?
    ensures r.Ok? ==> r.value == reply.value.index
    ensures reply.Ok? && reply.value == Response.NotFound ==> r == Err(ErrorKind.NotFound)
    ensures reply.Ok? && (reply.value == Success || reply.value == Failed) ==> r == Err(OtherKind)
  {
    match reply
    case Err(kind) => Err(kind)
    case Ok(response) =>
      if response.Index? then Ok(response.index)
      else if response == Response.NotFound then Err(ErrorKind.NotFound)
      else Err(OtherKind)
  }

  /** A successful lookup on the server reaches the caller as the index it found. */
  lemma LookupReachesCaller(e: Endian, name: string, k: Kernel)
    requires FirstNonZero(k.links.items).Some?
    ensures GetIndexByNameResult(Ok(Handle(e, GetIndexByName(name), k).response))
      == Ok(FirstNonZero(k.links.items).value)
  {
  }
}
