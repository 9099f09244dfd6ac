/** The route subsystem (`src/route.rs`): listing the IPv4 or IPv6 routing
    table, adding, replacing and deleting a route, and looking one up by
    destination address or by exact prefix. Messages are built and read by
    `RouteCodec`; the kernel's answers are inputs. The v4 and v6 request pairs
    share one definition each, parameterised by the address family. */
module Route {
  import opened Common
  import opened RouteCodec

  datatype Request =
    | RouteList(listFamily: AddrFamily)
    | RouteAdd(addFamily: AddrFamily, route: IpRoute, replace: bool)
    | RouteDel(delFamily: AddrFamily, target: IpRoute)
    | RouteGet(destination: IpAddr)
    | RouteGetByPrefix(prefix: Net)

  /** What the Rust request types guarantee: an `Ipv4Route` is a v4 route. */
  predicate WellFormed(req: Request) {
    match req
    case RouteAdd(fam, route, _) => RouteOfFamily(fam, route)
    case RouteDel(fam, route) => RouteOfFamily(fam, route)
    case _ => true
  }

  datatype Response =
    | Success
    | Failed
    | NotImplemented
    | NotFound
    | Ipv4RouteList(v4routes: seq<IpRoute>)
    | Ipv6RouteList(v6routes: seq<IpRoute>)
    | Ipv4Route(v4route: IpRoute)
    | Ipv6Route(v6route: IpRoute)

  /** What reaches the wire: a dump request carrying a query message, an add
      (with or without the replace flag), or a delete. */
  datatype Op =
    | GetRoutes(query: RouteMessage)
    | AddRoute(message: RouteMessage, replace: bool)
    | DelRoute(message: RouteMessage)

  /** The transport's answers: the outcome of an add or delete, and the reply stream. */
  datatype Kernel = Kernel(exec: Exec, dump: Stream<RouteMessage>)

  /** The message a listing sends: the library builder's defaults for the
      family (main table, unicast) and nothing else. */
  function ListQuery(fam: AddrFamily): (m: RouteMessage)
    ensures m.header.family == fam && m.attributes == []
  {
    RouteMessage(RouteHeader(fam, 0, RT_TABLE_MAIN, RtnUnicast), [])
  }

  // ---------------------------------------------------------------------------
  // Listing
  // ---------------------------------------------------------------------------

  /** The routes of a dump, in stream order; messages that do not decode as a
      route of the family are skipped. */
  function RoutesOf(fam: AddrFamily, msgs: seq<RouteMessage>): (routes: seq<IpRoute>)
    ensures |routes| <= |msgs|
    ensures forall k :: 0 <= k < |routes| ==> RouteOfFamily(fam, routes[k])
  {
    if |msgs| == 0 then []
    else
      var last := msgs[|msgs| - 1];
      RoutesOf(fam, msgs[..|msgs| - 1]) + (match RouteOf(fam, last) case Some(r) => [r] case None => [])
  }

  /** Every listed route is the decoding of some message of the dump ... */
  lemma {:induction false} ListedRoutesAreDecoded(fam: AddrFamily, msgs: seq<RouteMessage>, k: nat)
    requires k < |RoutesOf(fam, msgs)|
    ensures exists j :: 0 <= j < |msgs| && RouteOf(fam, msgs[j]) == Some(RoutesOf(fam, msgs)[k])
  {
    var n := |msgs| - 1;
    var front := RoutesOf(fam, msgs[..n]);
    if k < |front| {
      ListedRoutesAreDecoded(fam, msgs[..n], k);
      var j :| 0 <= j < n && RouteOf(fam, msgs[..n][j]) == Some(front[k]);
      assert msgs[..n][j] == msgs[j];
    } else {
      assert RouteOf(fam, msgs[n]) == Some(RoutesOf(fam, msgs)[k]);
    }
  }

  /** ... and every message that decodes is listed. */
  lemma {:induction false} DecodedMessagesAreListed(fam: AddrFamily, msgs: seq<RouteMessage>, j: nat)
    requires j < |msgs| && RouteOf(fam, msgs[j]).Some?
    ensures RouteOf(fam, msgs[j]).value in RoutesOf(fam, msgs)
  {
    var n := |msgs| - 1;
    if j < n {
      assert msgs[..n][j] == msgs[j];
      DecodedMessagesAreListed(fam, msgs[..n], j);
    }
  }

  /** The listing answer: the decoded routes as the family's list, or Failed
      when the stream ends in an error. */
  function ListResponse(fam: AddrFamily, dump: Stream<RouteMessage>): (r: Response)
    ensures r == Failed <==> dump.error.Some?
    ensures dump.error.None? && fam == Inet ==> r.Ipv4RouteList? && |r.v4routes| <= |dump.items|
    ensures dump.error.None? && fam == Inet6 ==> r.Ipv6RouteList? && |r.v6routes| <= |dump.items|
  {
    if dump.error.Some? then Failed
    else if fam == Inet then Ipv4RouteList(RoutesOf(fam, dump.items))
    else Ipv6RouteList(RoutesOf(fam, dump.items))
  }

  /** `list_routes_v4`/`list_routes_v6`: decodes message after message,
      pushing each route, and gives up with Failed on a stream error. */
  method ListRoutes(fam: AddrFamily, dump: Stream<RouteMessage>) returns (r: Response)
    ensures r == ListResponse(fam, dump)
  {
    var msgs := dump.items;
    var routes: seq<IpRoute> := [];
    for i := 0 to |msgs|
      invariant routes == RoutesOf(fam, msgs[..i])
    {
      assert msgs[..i + 1][..i] == msgs[..i];
      var decoded := DecodeRoute(fam, msgs[i]);
      if decoded.Some? {
        routes := routes + [decoded.value];
      }
    }
    assert msgs[..|msgs|] == msgs;
    if dump.error.Some? {
      return Failed;
    }
    if fam == Inet {
      return Ipv4RouteList(routes);
    }
    return Ipv6RouteList(routes);
  }

  // ---------------------------------------------------------------------------
  // Lookup
  // ---------------------------------------------------------------------------

  /** What a lookup accepts: a route containing the address, or a route whose
      prefix is exactly the one asked for. */
  datatype Selector = ByDestination(target: IpAddr) | ByPrefix(net: Net)

  predicate Selects(sel: Selector, route: IpRoute) {
    match sel
    case ByDestination(a) => Contains(route.route, a)
    case ByPrefix(n) => route.route == n
  }

  /** The route one reply contributes to a lookup: none for local and
      broadcast entries or messages that do not decode, and none unless the
      selector accepts it. */
  function Candidate(fam: AddrFamily, sel: Selector, msg: RouteMessage): (r: Option<IpRoute>)
    ensures r.Some? ==> msg.header.kind != RtnLocal && msg.header.kind != RtnBroadcast
    ensures r.Some? ==> RouteOf(fam, msg) == r && Selects(sel, r.value)
    ensures r.None? ==> msg.header.kind in {RtnLocal, RtnBroadcast} || RouteOf(fam, msg).None? || !Selects(sel, RouteOf(fam, msg).value)
  {
    if msg.header.kind == RtnLocal || msg.header.kind == RtnBroadcast then None
    else match RouteOf(fam, msg)
      case None => None
      case Some(route) => if Selects(sel, route) then Some(route) else None
  }

  /** The first candidate of the stream, in stream order. */
  function FirstMatch(fam: AddrFamily, sel: Selector, msgs: seq<RouteMessage>): (r: Option<IpRoute>)
    ensures r.None? <==> forall k :: 0 <= k < |msgs| ==> Candidate(fam, sel, msgs[k]).None?
    ensures r.Some? ==> exists k :: 0 <= k < |msgs| && Candidate(fam, sel, msgs[k]) == r &&
                                    forall j :: 0 <= j < k ==> Candidate(fam, sel, msgs[j]).None?
  {
    if |msgs| == 0 then None
    else if Candidate(fam, sel, msgs[0]).Some? then Candidate(fam, sel, msgs[0])
    else
      var rest := FirstMatch(fam, sel, msgs[1..]);
      assert forall k :: 1 <= k < |msgs| ==> msgs[k] == msgs[1..][k - 1];
      rest
  }

  function RouteResponse(fam: AddrFamily, route: IpRoute): Response {
    if fam == Inet then Ipv4Route(route) else Ipv6Route(route)
  }

  /** The lookup answer: the first candidate; otherwise Failed when the stream
      broke and NotFound when it ended. Replies after the first candidate are
      never read, so a later error does not matter. */
  function LookupResponse(fam: AddrFamily, sel: Selector, dump: Stream<RouteMessage>): (r: Response)
    ensures r == Failed <==> FirstMatch(fam, sel, dump.items).None? && dump.error.Some?
    ensures r == Response.NotFound <==> FirstMatch(fam, sel, dump.items).None? && dump.error.None?
    ensures FirstMatch(fam, sel, dump.items).Some? ==> r == RouteResponse(fam, FirstMatch(fam, sel, dump.items).value)
  {
    match FirstMatch(fam, sel, dump.items)
    case Some(route) => RouteResponse(fam, route)
    case None => if dump.error.Some? then Failed else Response.NotFound
  }

  /** `lookup_route` with the v4/v6 filter: returns at the first reply that
      yields a candidate. */
  method LookupRoute(fam: AddrFamily, sel: Selector, dump: Stream<RouteMessage>) returns (r: Response)
    ensures r == LookupResponse(fam, sel, dump)
  {
    var msgs := dump.items;
    for i := 0 to |msgs|
      invariant forall k :: 0 <= k < i ==> Candidate(fam, sel, msgs[k]).None?
    {
      var msg := msgs[i];
      if msg.header.kind == RtnLocal || msg.header.kind == RtnBroadcast {
        continue;
      }
      var decoded := DecodeRoute(fam, msg);
      if decoded.Some? && Selects(sel, decoded.value) {
        FirstCandidate(fam, sel, msgs, i);
        return RouteResponse(fam, decoded.value);
      }
    }
    if dump.error.Some? {
      return Failed;
    }
    return Response.NotFound;
  }

  /** A candidate after none is the first match. */
  lemma {:induction false} FirstCandidate(fam: AddrFamily, sel: Selector, msgs: seq<RouteMessage>, i: nat)
    requires i < |msgs| && Candidate(fam, sel, msgs[i]).Some?
    requires forall k :: 0 <= k < i ==> Candidate(fam, sel, msgs[k]).None?
    ensures FirstMatch(fam, sel, msgs) == Candidate(fam, sel, msgs[i])
  {
    if i > 0 {
      FirstCandidate(fam, sel, msgs[1..], i - 1);
    }
  }

  /** The query of `get_route_v4`/`get_route_v6`: the address as a full-length prefix. */
  function GetQuery(destination: IpAddr): RouteMessage {
    var fam: AddrFamily := FamilyOf(destination);
    QueryMessage(fam, Some(destination), AddrBits(fam) as uint8)
  }

  /** The query of the by-prefix lookups: the prefix, without a destination
      when its length is 0. */
  function PrefixQuery(prefix: Net): RouteMessage {
    var fam: AddrFamily := FamilyOf(prefix.addr);
    QueryMessage(fam, if prefix.len == 0 then None else Some(prefix.addr), prefix.len as uint8)
  }

  /** A /0 prefix query carries no `Destination`; any other carries exactly the prefix's address. */
  lemma ZeroPrefixQueryIsBare(prefix: Net)
    ensures prefix.len == 0 ==> PrefixQuery(prefix).attributes == []
    ensures prefix.len != 0 ==> PrefixQuery(prefix).attributes == [Destination(prefix.addr)]
  {
  }

  /** Both queries describe what they ask about: the full-length host route
      of the destination, and the prefix itself (the unspecified address for
      a /0). */
  lemma QueriesDescribeTarget(destination: IpAddr, prefix: Net)
    ensures var fam := FamilyOf(destination);
      RouteOf(fam, GetQuery(destination)).Some? &&
      RouteOf(fam, GetQuery(destination)).value.route == IpNet(destination, AddrBits(fam))
    ensures var fam := FamilyOf(prefix.addr);
      RouteOf(fam, PrefixQuery(prefix)).Some? &&
      RouteOf(fam, PrefixQuery(prefix)).value.route ==
        IpNet(if prefix.len == 0 then Unspecified(fam) else prefix.addr, prefix.len)
  {
    QueryDescribesPrefix(FamilyOf(destination), Some(destination), AddrBits(FamilyOf(destination)) as uint8);
    QueryDescribesPrefix(FamilyOf(prefix.addr), if prefix.len == 0 then None else Some(prefix.addr), prefix.len as uint8);
  }

  // ---------------------------------------------------------------------------
  // Add, replace and delete outcomes
  // ---------------------------------------------------------------------------

  /** `map_route_result`: a kernel "not found" is NotFound; every other
      failure, "already exists" included, is Failed. */
  function MapRouteResult(exec: Exec): (r: Response)
    ensures r == Success <==> exec == ExecOk
    ensures r == Response.NotFound <==> exec == ExecErr(NetlinkError(ErrorKind.NotFound))
    ensures r == Success || r == Response.NotFound || r == Failed
  {
    match exec
    case ExecOk => Success
    case ExecErr(NetlinkError(kind)) => if kind == ErrorKind.NotFound then Response.NotFound else Failed
    case ExecErr(OtherError) => Failed
  }

  // ---------------------------------------------------------------------------
  // The server loop body
  // ---------------------------------------------------------------------------

  /** One iteration of `run_server`. */
  function Handle(req: Request, k: Kernel): (h: Handled<Response, Op>)
    requires WellFormed(req)
    ensures req.RouteList? ==> h == Handled(ListResponse(req.listFamily, k.dump), [GetRoutes(ListQuery(req.listFamily))])
    ensures req.RouteAdd? ==> h.ops == [AddRoute(RouteMessageOf(req.addFamily, req.route), req.replace)]
    ensures req.RouteDel? ==> h.ops == [DelRoute(RouteMessageOf(req.delFamily, req.target))]
    ensures req.RouteGet? ==> h.ops == [GetRoutes(GetQuery(req.destination))]
    ensures req.RouteGetByPrefix? ==> h.ops == [GetRoutes(PrefixQuery(req.prefix))]
    ensures req.RouteGet? ==>
      h.response == LookupResponse(FamilyOf(req.destination), ByDestination(req.destination), k.dump)
    ensures req.RouteGetByPrefix? ==>
      h.response == LookupResponse(FamilyOf(req.prefix.addr), ByPrefix(req.prefix), k.dump)
    ensures (req.RouteAdd? || req.RouteDel?) ==> h.response == MapRouteResult(k.exec)
    ensures h.response.Ipv4Route? ==> req.RouteGet? || req.RouteGetByPrefix?
    ensures req.RouteGet? && h.response.Ipv4Route? ==> Contains(h.response.v4route.route, req.destination)
    ensures req.RouteGetByPrefix? && h.response.Ipv4Route? ==> h.response.v4route.route == req.prefix
    ensures h.response.Ipv6Route? ==> req.RouteGet? || req.RouteGetByPrefix?
    ensures req.RouteGet? && h.response.Ipv6Route? ==> Contains(h.response.v6route.route, req.destination)
    ensures req.RouteGetByPrefix? && h.response.Ipv6Route? ==> h.response.v6route.route == req.prefix
    ensures h.response != NotImplemented
  {
    match req
    case RouteList(fam) =>
      Handled(ListResponse(fam, k.dump), [GetRoutes(ListQuery(fam))])
    case RouteAdd(fam, route, replace) =>
      Handled(MapRouteResult(k.exec), [AddRoute(RouteMessageOf(fam, route), replace)])
    case RouteDel(fam, route) =>
      Handled(MapRouteResult(k.exec), [DelRoute(RouteMessageOf(fam, route))])
    case RouteGet(destination) =>
      Handled(LookupResponse(FamilyOf(destination), ByDestination(destination), k.dump), [GetRoutes(GetQuery(destination))])
    case RouteGetByPrefix(prefix) =>
      Handled(LookupResponse(FamilyOf(prefix.addr), ByPrefix(prefix), k.dump), [GetRoutes(PrefixQuery(prefix))])
  }

  /** A lookup answers with the first reply, in stream order, that is neither
      local nor broadcast, decodes, and contains the destination. */
  lemma GetFindsFirstContainingRoute(destination: IpAddr, k: Kernel)
    ensures var h := Handle(RouteGet(destination), k).response;
      var fam := FamilyOf(destination);
      (h.Ipv4Route? || h.Ipv6Route?) ==>
        exists i :: 0 <= i < |k.dump.items| &&
          k.dump.items[i].header.kind != RtnLocal && k.dump.items[i].header.kind != RtnBroadcast &&
          RouteOf(fam, k.dump.items[i]) == Some(if h.Ipv4Route? then h.v4route else h.v6route) &&
          Contains(RouteOf(fam, k.dump.items[i]).value.route, destination) &&
          forall j :: 0 <= j < i ==> Candidate(fam, ByDestination(destination), k.dump.items[j]).None?
  {
  }

  /** A by-prefix lookup answers a route exactly when some reply is a
      candidate for the prefix, and then it answers the first one. */
  lemma PrefixGetAnswersFirstCandidate(prefix: Net, k: Kernel)
    ensures var fam := FamilyOf(prefix.addr);
      var h := Handle(RouteGetByPrefix(prefix), k).response;
      && ((h.Ipv4Route? || h.Ipv6Route?) <==>
          exists i :: 0 <= i < |k.dump.items| && Candidate(fam, ByPrefix(prefix), k.dump.items[i]).Some?)
      && (forall i ::
            (0 <= i < |k.dump.items| && Candidate(fam, ByPrefix(prefix), k.dump.items[i]).Some? &&
             forall j :: 0 <= j < i ==> Candidate(fam, ByPrefix(prefix), k.dump.items[j]).None?)
            ==> h == RouteResponse(fam, Candidate(fam, ByPrefix(prefix), k.dump.items[i]).value))
  {
  }

  /** A local or broadcast entry is never the answer to a lookup, even when it
      is the only reply containing the destination. */
  lemma LocalEntriesSkipped(sel: Selector, msg: RouteMessage, error: Option<RtnlError>)
    requires msg.header.kind == RtnLocal || msg.header.kind == RtnBroadcast
    ensures forall fam: AddrFamily :: LookupResponse(fam, sel, Stream([msg], error)) == (if error.Some? then Failed else Response.NotFound)
  {
  }

  // ---------------------------------------------------------------------------
  // Client side
  // ---------------------------------------------------------------------------

  /** `handle_route_status`: Success is the only good answer; NotFound and
      NotImplemented keep their meaning, anything else is an "other" error. */
  function HandleRouteStatus(reply: Result<Response, ErrorKind>): (r: Result<(), ErrorKind>)
    ensures r.Ok? <==> reply == Ok(Success)
    ensures reply == Ok(Response.NotFound) ==> r == Err(ErrorKind.NotFound)
    ensures reply == Ok(NotImplemented) ==> r == Err(Unsupported)
    ensures reply.Ok? && reply.value != Success && reply.value != Response.NotFound && reply.value != NotImplemented ==> r == Err(OtherKind)
    ensures reply.Err? ==> r == Err(reply.error)
  {
    match reply
    case Err(kind) => Err(kind)
    case Ok(response) =>
      if response == Success then Ok(())
      else if response == Response.NotFound then Err(ErrorKind.NotFound)
      else if response == NotImplemented then Err(Unsupported)
      else Err(OtherKind)
  }

  /** `ipv4_route_list`/`ipv6_route_list`: only the list of the family asked for is accepted. */
  function RouteListResult(fam: AddrFamily, reply: Result<Response, ErrorKind>): (r: Result<seq<IpRoute>, ErrorKind>)
    ensures r.Ok? <==> reply.Ok? && (if fam == Inet then reply.value.Ipv4RouteList? else reply.value.Ipv6RouteList?)
    ensures r.Ok? ==> r.value == (if fam == Inet then reply.value.v4routes else reply.value.v6routes)
    ensures reply.Ok? && r.Err? ==> r.error == OtherKind
  {
    match reply
    case Err(kind) => Err(kind)
    case Ok(response) =>
      if fam == Inet && response.Ipv4RouteList? then Ok(response.v4routes)
      else if fam == Inet6 && response.Ipv6RouteList? then Ok(response.v6routes)
      else Err(OtherKind)
  }

  /** `ipv4_route_get`, `ipv4_route_get_by_prefix` and their v6 twins: the
      route of the family, NotFound as such, anything else an "other" error. */
  function RouteGetResult(fam: AddrFamily, reply: Result<Response, ErrorKind>): (r: Result<IpRoute, ErrorKind>)
    ensures r.Ok? <==> reply.Ok? && (if fam == Inet then reply.value.Ipv4Route? else reply.value.Ipv6Route?)
    ensures r.Ok? ==> r.value == (if fam == Inet then reply.value.v4route else reply.value.v6route)
    ensures reply == Ok(Response.NotFound) ==> r == Err(ErrorKind.NotFound)
    ensures reply.Ok? && r.Err? && reply.value != Response.NotFound ==> r.error == OtherKind
  {
    match reply
    case Err(kind) => Err(kind)
    case Ok(response) =>
      if fam == Inet && response.Ipv4Route? then Ok(response.v4route)
      else if fam == Inet6 && response.Ipv6Route? then Ok(response.v6route)
      else if response == Response.NotFound then Err(ErrorKind.NotFound)
      else Err(OtherKind)
  }

  /** Unlike adding an address, adding a route that already exists is an
      error for the caller; with the replace flag the kernel does not refuse. */
  lemma AddExistingRouteFails(fam: AddrFamily, route: IpRoute, replace: bool, dump: Stream<RouteMessage>)
    requires RouteOfFamily(fam, route)
    ensures HandleRouteStatus(Ok(Handle(RouteAdd(fam, route, replace), Kernel(ExecErr(NetlinkError(AlreadyExists)), dump)).response))
      == Err(OtherKind)
  {
  }

  /** A kernel not-found error on delete reaches the caller as NotFound. Which
      errno the kernel reports for a missing route, and whether it maps to the
      not-found kind, is outside this model. */
  lemma KernelNotFoundOnDeleteIsNotFound(fam: AddrFamily, route: IpRoute, dump: Stream<RouteMessage>)
    requires RouteOfFamily(fam, route)
    ensures HandleRouteStatus(Ok(Handle(RouteDel(fam, route), Kernel(ExecErr(NetlinkError(ErrorKind.NotFound)), dump)).response))
      == Err(ErrorKind.NotFound)
  {
  }

  /** A lookup that finds nothing reaches the caller as NotFound; one whose
      stream broke first, as an "other" error. */
  lemma LookupMissIsNotFound(destination: IpAddr, k: Kernel)
    requires FirstMatch(FamilyOf(destination), ByDestination(destination), k.dump.items).None?
    ensures RouteGetResult(FamilyOf(destination), Ok(Handle(RouteGet(destination), k).response)) ==
      Err(if k.dump.error.Some? then OtherKind else ErrorKind.NotFound)
  {
  }

  /** A listed route always reaches the caller whole: the client returns the
      server's list unchanged. */
  lemma ListingReachesClient(fam: AddrFamily, k: Kernel)
    requires k.dump.error.None?
    ensures RouteListResult(fam, Ok(Handle(RouteList(fam), k).response)) == Ok(RoutesOf(fam, k.dump.items))
  {
  }
}
