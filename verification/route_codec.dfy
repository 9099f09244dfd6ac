/** The route codec of `src/route.rs`: routes as the library presents them,
    route messages as the kernel exchanges them (a header plus an attribute
    list), the multipath next-hop encoding and its weight conversion, and the
    decoder that turns a message back into a route. `Ipv4Route`/`Ipv6Route`
    and each v4/v6 pair of functions share one definition, parameterised by
    the route's address family. */
module RouteCodec {
  import opened Common

  // ---------------------------------------------------------------------------
  // Routes
  // ---------------------------------------------------------------------------

  /** `RouteNextHopFlags`, carried through unchanged. */
  type NextHopFlags = uint8

  /** `RouteNextHopInfo`: one path of a multipath route. */
  datatype NextHopInfo = NextHopInfo(ifId: Option<uint32>, gateway: Option<IpAddr>, weight: uint32, flags: NextHopFlags)

  /** `Ipv4Route` / `Ipv6Route`. */
  datatype IpRoute = IpRoute(
    ifId: Option<uint32>,
    gateway: Option<IpAddr>,
    source: Option<IpAddr>,
    metric: Option<uint32>,
    table: Option<uint32>,
    route: Net,
    nexthops: seq<NextHopInfo>)

  /** What the Rust types guarantee of an `Ipv4Route` (or `Ipv6Route`): its
      prefix and preferred source are of the route's family. The gateway may be
      of either family. */
  predicate RouteOfFamily(fam: AddrFamily, r: IpRoute) {
    FamilyOf(r.route.addr) == fam && (r.source.Some? ==> FamilyOf(r.source.value) == fam)
  }

  // ---------------------------------------------------------------------------
  // Messages
  // ---------------------------------------------------------------------------

  /** The `rtm_type` values (RTN_*) the codec writes or the lookup inspects. */
  datatype RouteType = RtnUnspec | RtnUnicast | RtnLocal | RtnBroadcast | RtnOther

  /** `RouteNextHop`: an `rtnexthop` with its nested attributes. */
  datatype RouteNextHop = RouteNextHop(flags: NextHopFlags, hops: uint8, interfaceIndex: uint32, attributes: seq<RouteAttribute>)

  /** The `RTA_*` attributes the codec reads or writes. */
  datatype RouteAttribute =
    | Destination(dst: IpAddr)
    | Gateway(gw: IpAddr)
    | Via(via: IpAddr)
    | PrefSource(src: IpAddr)
    | Priority(priority: uint32)
    | Oif(oif: uint32)
    | Table(id: uint32)
    | MultiPath(paths: seq<RouteNextHop>)
    | OtherRouteAttr

  datatype RouteHeader = RouteHeader(family: Family, dstLen: uint8, table: uint8, kind: RouteType)

  datatype RouteMessage = RouteMessage(header: RouteHeader, attributes: seq<RouteAttribute>)

  // ---------------------------------------------------------------------------
  // Last attribute wins
  // ---------------------------------------------------------------------------

  /** The value `pick` reads from the last attribute it reads anything from:
      a loop that overwrites a variable on every matching attribute ends with
      this value. */
  function Last<T>(attrs: seq<RouteAttribute>, pick: RouteAttribute -> Option<T>): Option<T> {
    if |attrs| == 0 then None
    else if pick(attrs[|attrs| - 1]).Some? then pick(attrs[|attrs| - 1])
    else Last(attrs[..|attrs| - 1], pick)
  }

  /** `Last` finds nothing exactly when no attribute sets the field, and
      otherwise what an attribute sets that no later attribute overrides. */
  lemma {:induction false} LastCharacterized<T>(attrs: seq<RouteAttribute>, pick: RouteAttribute -> Option<T>)
    ensures Last(attrs, pick).None? <==> forall k :: 0 <= k < |attrs| ==> pick(attrs[k]).None?
    ensures Last(attrs, pick).Some? ==>
      exists k :: 0 <= k < |attrs| && pick(attrs[k]) == Last(attrs, pick) && forall j :: k < j < |attrs| ==> pick(attrs[j]).None?
  {
    if |attrs| > 0 {
      var n := |attrs| - 1;
      LastCharacterized(attrs[..n], pick);
      if pick(attrs[n]).None? {
        assert forall k :: 0 <= k < n ==> attrs[..n][k] == attrs[k];
        if Last(attrs, pick).Some? {
          var k :| 0 <= k < n && pick(attrs[..n][k]) == Last(attrs, pick) && forall j :: k < j < n ==> pick(attrs[..n][j]).None?;
          assert pick(attrs[k]) == Last(attrs, pick);
        }
      }
    }
  }

  /** When `a` is the only attribute `pick` reads from, the result is what it reads from `a`. */
  lemma LastUnique<T>(attrs: seq<RouteAttribute>, pick: RouteAttribute -> Option<T>, a: RouteAttribute)
    requires a in attrs
    requires forall x :: x in attrs && pick(x).Some? ==> x == a
    ensures Last(attrs, pick) == pick(a)
  {
    LastCharacterized(attrs, pick);
  }

  /** The gateway of a route or next hop: a `Gateway` or a `Via`, of either family. */
  function PickGateway(a: RouteAttribute): Option<IpAddr> {
    if a.Gateway? then Some(a.gw) else if a.Via? then Some(a.via) else None
  }

  /** The destination, read only when it is of the route's family. */
  function PickDestination(fam: AddrFamily): RouteAttribute -> Option<IpAddr> {
    (a: RouteAttribute) => if a.Destination? && FamilyOf(a.dst) == fam then Some(a.dst) else None
  }

  /** The preferred source, read only when it is of the route's family. */
  function PickSource(fam: AddrFamily): RouteAttribute -> Option<IpAddr> {
    (a: RouteAttribute) => if a.PrefSource? && FamilyOf(a.src) == fam then Some(a.src) else None
  }

  function PickPriority(a: RouteAttribute): Option<uint32> {
    if a.Priority? then Some(a.priority) else None
  }

  function PickOif(a: RouteAttribute): Option<uint32> {
    if a.Oif? then Some(a.oif) else None
  }

  function PickTable(a: RouteAttribute): Option<uint32> {
    if a.Table? then Some(a.id) else None
  }

  // ---------------------------------------------------------------------------
  // Weights and next hops
  // ---------------------------------------------------------------------------

  /** `weight_to_hops`: `weight - 1`, floored at 0 and capped at 255. */
  function WeightToHops(weight: uint32): (hops: uint8)
    ensures 1 <= weight <= 0x100 ==> hops == weight - 1
    ensures weight == 0 ==> hops == 0
    ensures weight > 0x100 ==> hops == 0xff
  {
    if weight == 0 then 0 else if weight - 1 > 0xff then 0xff else weight - 1
  }

  /** The weight `convert_multipath` reads back: `hops + 1`, which never
      reaches the `u32` saturation point. */
  function HopsToWeight(hops: uint8): (weight: uint32)
    ensures 1 <= weight <= 0x100
  {
    hops + 1
  }

  lemma HopsRoundTrip(hops: uint8)
    ensures WeightToHops(HopsToWeight(hops)) == hops
  {
  }

  /** Weights 1..256 survive the wire; 0 comes back as 1, anything above 256 as 256. */
  lemma WeightRoundTrip(weight: uint32)
    ensures 1 <= weight <= 0x100 ==> HopsToWeight(WeightToHops(weight)) == weight
    ensures weight == 0 ==> HopsToWeight(WeightToHops(weight)) == 1
    ensures weight > 0x100 ==> HopsToWeight(WeightToHops(weight)) == 0x100
  {
  }

  /** `Some(i)` unless `i` is 0 (`filter(|id| *id != 0)`). */
  function NonZero(index: Option<uint32>): (r: Option<uint32>)
    ensures r != Some(0)
    ensures index != Some(0) ==> r == index
  {
    if index == Some(0) then None else index
  }

  /** One path as `convert_multipath` decodes it. */
  function NextHopOf(path: RouteNextHop): (info: NextHopInfo)
    ensures info.ifId.None? <==> path.interfaceIndex == 0
    ensures info.ifId.Some? ==> info.ifId.value == path.interfaceIndex
    ensures info.weight == path.hops + 1 && info.flags == path.flags
  {
    NextHopInfo(
      if path.interfaceIndex == 0 then None else Some(path.interfaceIndex),
      Last(path.attributes, PickGateway),
      HopsToWeight(path.hops),
      path.flags)
  }

  /** `convert_multipath` as a value: one entry per path, in order. */
  function NextHopsOf(paths: seq<RouteNextHop>): (infos: seq<NextHopInfo>)
    ensures |infos| == |paths|
    ensures forall k :: 0 <= k < |paths| ==> infos[k] == NextHopOf(paths[k])
  {
    seq(|paths|, k requires 0 <= k < |paths| => NextHopOf(paths[k]))
  }

  /** `convert_multipath`: for every path, scans its attributes for the last
      gateway, then pushes the decoded entry. */
  method ConvertMultipath(paths: seq<RouteNextHop>) returns (result: seq<NextHopInfo>)
    ensures result == NextHopsOf(paths)
  {
    result := [];
    for i := 0 to |paths|
      invariant result == NextHopsOf(paths[..i])
    {
      var path := paths[i];
      var gateway: Option<IpAddr> := None;
      for j := 0 to |path.attributes|
        invariant gateway == Last(path.attributes[..j], PickGateway)
      {
        var attr := path.attributes[j];
        assert path.attributes[..j + 1][..j] == path.attributes[..j];
        if attr.Gateway? {
          gateway := Some(attr.gw);
        } else if attr.Via? {
          gateway := Some(attr.via);
        }
      }
      assert path.attributes[..|path.attributes|] == path.attributes;
      var weight := HopsToWeight(path.hops);
      var ifId := if path.interfaceIndex == 0 then None else Some(path.interfaceIndex);
      result := result + [NextHopInfo(ifId, gateway, weight, path.flags)];
    }
    assert paths[..|paths|] == paths;
  }

  /** The gateway attribute of a next hop or route: `Gateway` when the address
      is of the route's family, `Via` otherwise. */
  function GatewayAttrs(fam: AddrFamily, gateway: Option<IpAddr>): (attrs: seq<RouteAttribute>)
    ensures gateway.None? ==> attrs == []
    ensures gateway.Some? && FamilyOf(gateway.value) == fam ==> attrs == [Gateway(gateway.value)]
    ensures gateway.Some? && FamilyOf(gateway.value) != fam ==> attrs == [Via(gateway.value)]
  {
    match gateway
    case None => []
    case Some(a) => if FamilyOf(a) == fam then [Gateway(a)] else [Via(a)]
  }

  /** One entry as `build_multipath_v4/v6` encodes it. */
  function WireNextHop(fam: AddrFamily, entry: NextHopInfo): (path: RouteNextHop)
    ensures path.flags == entry.flags && path.hops == WeightToHops(entry.weight)
    ensures path.interfaceIndex == entry.ifId.GetOr(0)
    ensures path.attributes == GatewayAttrs(fam, entry.gateway)
  {
    RouteNextHop(entry.flags, WeightToHops(entry.weight), entry.ifId.GetOr(0), GatewayAttrs(fam, entry.gateway))
  }

  /** `build_multipath_v4/v6` as a value: nothing for no entries, otherwise one
      wire next hop per entry, in order. */
  function MultipathOf(fam: AddrFamily, entries: seq<NextHopInfo>): (r: Option<seq<RouteNextHop>>)
    ensures r.None? <==> |entries| == 0
    ensures r.Some? ==> |r.value| == |entries|
    ensures r.Some? ==> forall k :: 0 <= k < |entries| ==> r.value[k] == WireNextHop(fam, entries[k])
  {
    if |entries| == 0 then None
    else Some(seq(|entries|, k requires 0 <= k < |entries| => WireNextHop(fam, entries[k])))
  }

  /** `build_multipath_v4/v6`: pushes one wire next hop per entry. */
  method BuildMultipath(fam: AddrFamily, entries: seq<NextHopInfo>) returns (r: Option<seq<RouteNextHop>>)
    ensures r == MultipathOf(fam, entries)
  {
    var nexthops: seq<RouteNextHop> := [];
    for i := 0 to |entries|
      invariant |nexthops| == i
      invariant forall k :: 0 <= k < i ==> nexthops[k] == WireNextHop(fam, entries[k])
    {
      var entry := entries[i];
      var attributes := [];
      match entry.gateway {
        case Some(a) =>
          if FamilyOf(a) == fam {
            attributes := attributes + [Gateway(a)];
          } else {
            attributes := attributes + [Via(a)];
          }
        case None =>
      }
      nexthops := nexthops + [RouteNextHop(entry.flags, WeightToHops(entry.weight), entry.ifId.GetOr(0), attributes)];
    }
    if |nexthops| == 0 {
      return None;
    }
    assert nexthops == MultipathOf(fam, entries).value;
    return Some(nexthops);
  }

  /** What survives the wire of a next hop: interface 0 is no interface, and the
      weight is clamped to 1..256. */
  function WireNormal(entry: NextHopInfo): (e: NextHopInfo)
    ensures e.gateway == entry.gateway && e.flags == entry.flags
  {
    NextHopInfo(NonZero(entry.ifId), entry.gateway, HopsToWeight(WeightToHops(entry.weight)), entry.flags)
  }

  /** Encoding then decoding a next hop keeps its gateway (whichever attribute
      carried it), flags and interface, and its weight when it was in 1..256. */
  lemma NextHopRoundTrip(fam: AddrFamily, entry: NextHopInfo)
    ensures NextHopOf(WireNextHop(fam, entry)) == WireNormal(entry)
  {
    var path := WireNextHop(fam, entry);
    if entry.gateway.Some? {
      LastUnique(path.attributes, PickGateway, path.attributes[0]);
    }
  }

  /** ... and so does a whole multipath list. */
  lemma MultipathRoundTrip(fam: AddrFamily, entries: seq<NextHopInfo>)
    requires |entries| > 0
    ensures |NextHopsOf(MultipathOf(fam, entries).value)| == |entries|
    ensures forall k :: 0 <= k < |entries| ==> NextHopsOf(MultipathOf(fam, entries).value)[k] == WireNormal(entries[k])
  {
    forall k | 0 <= k < |entries|
      ensures NextHopsOf(MultipathOf(fam, entries).value)[k] == WireNormal(entries[k])
    {
      NextHopRoundTrip(fam, entries[k]);
    }
  }

  // ---------------------------------------------------------------------------
  // Decoding
  // ---------------------------------------------------------------------------

  /** `table_from_header`: the header's table byte, 0 meaning none. */
  function TableFromHeader(value: uint8): (r: Option<uint32>)
    ensures r.None? <==> value == 0
    ensures r.Some? ==> r.value == value
  {
    if value == 0 then None else Some(value)
  }

  /** The next hops of every `MultiPath` attribute, one list after another. */
  function AllNextHops(attrs: seq<RouteAttribute>): seq<NextHopInfo> {
    if |attrs| == 0 then []
    else
      var last := attrs[|attrs| - 1];
      AllNextHops(attrs[..|attrs| - 1]) + (if last.MultiPath? then NextHopsOf(last.paths) else [])
  }

  lemma {:induction false} AllNextHopsAppend(xs: seq<RouteAttribute>, ys: seq<RouteAttribute>)
    ensures AllNextHops(xs + ys) == AllNextHops(xs) + AllNextHops(ys)
  {
    if |ys| == 0 {
      assert xs + ys == xs;
    } else {
      var n := |ys| - 1;
      assert (xs + ys)[..|xs + ys| - 1] == xs + ys[..n];
      AllNextHopsAppend(xs, ys[..n]);
    }
  }

  lemma {:induction false} NoMultiPath(attrs: seq<RouteAttribute>)
    requires forall x :: x in attrs ==> !x.MultiPath?
    ensures AllNextHops(attrs) == []
  {
    if |attrs| > 0 {
      assert attrs[|attrs| - 1] in attrs;
      assert forall x :: x in attrs[..|attrs| - 1] ==> x in attrs;
      NoMultiPath(attrs[..|attrs| - 1]);
    }
  }

  /** The route `decode_ipv4_route`/`decode_ipv6_route` produce: nothing for a
      message of the other family or a prefix length wider than the address;
      otherwise each field from the last attribute that sets it, interface 0
      read as none, the table from a `Table` attribute or else the header, and
      the next hops of all `MultiPath` attributes in order. */
  function RouteOf(fam: AddrFamily, msg: RouteMessage): (r: Option<IpRoute>)
    ensures r.Some? <==> msg.header.family == fam && msg.header.dstLen <= AddrBits(fam)
    ensures r.Some? ==> RouteOfFamily(fam, r.value)
    ensures r.Some? ==> r.value.ifId != Some(0) && r.value.route.len == msg.header.dstLen
    ensures r.Some? ==> (r.value.table.None? <==>
      msg.header.table == 0 && forall k :: 0 <= k < |msg.attributes| ==> !msg.attributes[k].Table?)
  {
    var attrs := msg.attributes;
    if msg.header.family != fam || msg.header.dstLen > AddrBits(fam) then None
    else
      LastCharacterized(attrs, PickDestination(fam));
      LastCharacterized(attrs, PickSource(fam));
      LastCharacterized(attrs, PickTable);
      var addr := Last(attrs, PickDestination(fam)).GetOr(Unspecified(fam));
      var tableAttr := Last(attrs, PickTable);
      Some(IpRoute(
        NonZero(Last(attrs, PickOif)),
        Last(attrs, PickGateway),
        Last(attrs, PickSource(fam)),
        Last(attrs, PickPriority),
        if tableAttr.Some? then tableAttr else TableFromHeader(msg.header.table),
        IpNet(addr, msg.header.dstLen),
        AllNextHops(attrs)))
  }

  /** `decode_ipv4_route`/`decode_ipv6_route`: one pass over the attributes,
      overwriting a local per field and extending the next-hop list. */
  method DecodeRoute(fam: AddrFamily, msg: RouteMessage) returns (r: Option<IpRoute>)
    ensures r == RouteOf(fam, msg)
  {
    if msg.header.family != fam {
      return None;
    }
    var attrs := msg.attributes;
    var destination: Option<IpAddr> := None;
    var gateway: Option<IpAddr> := None;
    var source: Option<IpAddr> := None;
    var metric: Option<uint32> := None;
    var table := TableFromHeader(msg.header.table);
    var oif: Option<uint32> := None;
    var nexthops: seq<NextHopInfo> := [];
    for i := 0 to |attrs|
      invariant destination == Last(attrs[..i], PickDestination(fam))
      invariant gateway == Last(attrs[..i], PickGateway)
      invariant source == Last(attrs[..i], PickSource(fam))
      invariant metric == Last(attrs[..i], PickPriority)
      invariant oif == Last(attrs[..i], PickOif)
      invariant table == if Last(attrs[..i], PickTable).Some? then Last(attrs[..i], PickTable) else TableFromHeader(msg.header.table)
      invariant nexthops == AllNextHops(attrs[..i])
    {
      var attr := attrs[i];
      LastStep(attrs, i, PickDestination(fam));
      LastStep(attrs, i, PickGateway);
      LastStep(attrs, i, PickSource(fam));
      LastStep(attrs, i, PickPriority);
      LastStep(attrs, i, PickOif);
      LastStep(attrs, i, PickTable);
      assert attrs[..i + 1][..i] == attrs[..i];
      match attr
      case Destination(a) =>
        if FamilyOf(a) == fam {
          destination := Some(a);
        }
      case Gateway(a) => gateway := Some(a);
      case Via(a) => gateway := Some(a);
      case PrefSource(a) =>
        if FamilyOf(a) == fam {
          source := Some(a);
        }
      case Priority(value) => metric := Some(value);
      case Oif(index) => oif := Some(index);
      case Table(value) => table := Some(value);
      case MultiPath(paths) =>
        var converted := ConvertMultipath(paths);
        nexthops := nexthops + converted;
      case OtherRouteAttr =>
    }
    assert attrs[..|attrs|] == attrs;
    LastCharacterized(attrs, PickDestination(fam));
    var addr := destination.GetOr(Unspecified(fam));
    if msg.header.dstLen > AddrBits(fam) {
      return None;
    }
    return Some(IpRoute(NonZero(oif), gateway, source, metric, table, IpNet(addr, msg.header.dstLen), nexthops));
  }

  /** Appending one attribute: it counts when it sets the field. */
  lemma LastStep<T>(attrs: seq<RouteAttribute>, i: nat, pick: RouteAttribute -> Option<T>)
    requires i < |attrs|
    ensures Last(attrs[..i + 1], pick) == if pick(attrs[i]).Some? then pick(attrs[i]) else Last(attrs[..i], pick)
  {
    assert attrs[..i + 1][..i] == attrs[..i];
  }

  /** Attributes that do not set the field leave it as it was. */
  lemma {:induction false} LastIgnoresSuffix<T>(xs: seq<RouteAttribute>, ys: seq<RouteAttribute>, pick: RouteAttribute -> Option<T>)
    requires forall k :: 0 <= k < |ys| ==> pick(ys[k]).None?
    ensures Last(xs + ys, pick) == Last(xs, pick)
  {
    if |ys| == 0 {
      assert xs + ys == xs;
    } else {
      var n := |ys| - 1;
      assert (xs + ys)[..|xs + ys| - 1] == xs + ys[..n];
      LastIgnoresSuffix(xs, ys[..n], pick);
    }
  }

  /** Of several attributes setting a field, the last one counts. */
  lemma LastWins<T>(xs: seq<RouteAttribute>, a: RouteAttribute, ys: seq<RouteAttribute>, pick: RouteAttribute -> Option<T>)
    requires pick(a).Some?
    requires forall k :: 0 <= k < |ys| ==> pick(ys[k]).None?
    ensures Last(xs + [a] + ys, pick) == pick(a)
  {
    LastIgnoresSuffix(xs + [a], ys, pick);
  }

  /** A `Table` attribute overrides the header's table byte; without one, a
      header byte of 0 means no table. */
  lemma TableOverridesHeader(fam: AddrFamily, msg: RouteMessage, xs: seq<RouteAttribute>, t: uint32, ys: seq<RouteAttribute>)
    requires msg.header.family == fam && msg.header.dstLen <= AddrBits(fam)
    requires msg.attributes == xs + [Table(t)] + ys
    requires forall k :: 0 <= k < |ys| ==> !ys[k].Table?
    ensures RouteOf(fam, msg).value.table == Some(t)
  {
    LastWins(xs, Table(t), ys, PickTable);
  }

  /** Two `MultiPath` attributes give their next hops one after the other. */
  lemma MultiPathsConcatenate(attrs: seq<RouteAttribute>, ps: seq<RouteNextHop>, qs: seq<RouteNextHop>)
    requires attrs == [MultiPath(ps), MultiPath(qs)]
    ensures AllNextHops(attrs) == NextHopsOf(ps) + NextHopsOf(qs)
  {
    assert attrs[..1] == [MultiPath(ps)];
    assert attrs[..1][..0] == [];
    assert AllNextHops(attrs[..1]) == NextHopsOf(ps);
  }

  // ---------------------------------------------------------------------------
  // Encoding
  // ---------------------------------------------------------------------------

  /** RT_TABLE_MAIN, the table a route built without one goes to. */
  const RT_TABLE_MAIN: uint8 := 254

  /** The header table byte the route builder writes: the table when it fits a
      byte, otherwise (or without a table) the main table. */
  function HeaderTable(table: Option<uint32>): (b: uint8)
    ensures table.Some? && table.value <= 0xff ==> b == table.value
    ensures table.None? || table.value > 0xff ==> b == RT_TABLE_MAIN
  {
    if table.Some? && table.value <= 0xff then table.value else RT_TABLE_MAIN
  }

  /** The attributes `build_ipv4_route_message`/`build_ipv6_route_message`
      push one by one: the prefix as `Destination`, then an `Oif` unless the
      interface is absent or 0, the gateway (`Gateway` when of the route's
      family, `Via` otherwise), `PrefSource`, `Priority`, and a `Table`
      attribute for tables beyond a byte. */
  function FieldAttrs(fam: AddrFamily, r: IpRoute): (attrs: seq<RouteAttribute>)
    ensures Destination(r.route.addr) in attrs
    ensures Oif(0) !in attrs
    ensures forall x :: x in attrs ==> !x.MultiPath?
  {
    [Destination(r.route.addr)]
      + (if NonZero(r.ifId).Some? then [Oif(r.ifId.value)] else [])
      + GatewayAttrs(fam, r.gateway)
      + (if r.source.Some? then [PrefSource(r.source.value)] else [])
      + (if r.metric.Some? then [Priority(r.metric.value)] else [])
      + (if r.table.Some? && r.table.value > 0xff then [Table(r.table.value)] else [])
  }

  /** The multipath list, pushed last and only when there are next hops. */
  function MultipathAttrs(fam: AddrFamily, r: IpRoute): (attrs: seq<RouteAttribute>)
    ensures |attrs| <= 1
    ensures |attrs| == 1 <==> |r.nexthops| > 0
    ensures forall x :: x in attrs ==> x.MultiPath?
  {
    if |r.nexthops| > 0 then [MultiPath(MultipathOf(fam, r.nexthops).value)] else []
  }

  /** The message handed to the kernel: a unicast route whose header carries
      the prefix length and the table when it fits a byte. */
  function RouteMessageOf(fam: AddrFamily, r: IpRoute): (m: RouteMessage)
    requires RouteOfFamily(fam, r)
    ensures m.header == RouteHeader(fam, r.route.len, HeaderTable(r.table), RtnUnicast)
    ensures Destination(r.route.addr) in m.attributes
    ensures Oif(0) !in m.attributes
  {
    RouteMessage(
      RouteHeader(fam, r.route.len, HeaderTable(r.table), RtnUnicast),
      FieldAttrs(fam, r) + MultipathAttrs(fam, r))
  }

  /** `build_ipv4_route_message`/`build_ipv6_route_message`: starts from the
      prefix and pushes one attribute per field that is set. */
  method BuildRouteMessage(fam: AddrFamily, r: IpRoute) returns (m: RouteMessage)
    requires RouteOfFamily(fam, r)
    ensures m == RouteMessageOf(fam, r)
  {
    var attrs := [Destination(r.route.addr)];
    var table := RT_TABLE_MAIN;
    if r.ifId.Some? && r.ifId.value != 0 {
      attrs := attrs + [Oif(r.ifId.value)];
    }
    ghost var pushed := [Destination(r.route.addr)] + (if NonZero(r.ifId).Some? then [Oif(r.ifId.value)] else []);
    assert attrs == pushed;
    match r.gateway {
      case Some(gw) =>
        if FamilyOf(gw) == fam {
          attrs := attrs + [Gateway(gw)];
        } else {
          attrs := attrs + [Via(gw)];
        }
      case None =>
    }
    pushed := pushed + GatewayAttrs(fam, r.gateway);
    assert attrs == pushed;
    if r.source.Some? {
      attrs := attrs + [PrefSource(r.source.value)];
    }
    pushed := pushed + (if r.source.Some? then [PrefSource(r.source.value)] else []);
    assert attrs == pushed;
    if r.metric.Some? {
      attrs := attrs + [Priority(r.metric.value)];
    }
    pushed := pushed + (if r.metric.Some? then [Priority(r.metric.value)] else []);
    assert attrs == pushed;
    if r.table.Some? {
      if r.table.value > 0xff {
        attrs := attrs + [Table(r.table.value)];
      } else {
        table := r.table.value as uint8;
      }
    }
    assert attrs == FieldAttrs(fam, r);
    if |r.nexthops| > 0 {
      var multipath := BuildMultipath(fam, r.nexthops);
      if multipath.Some? {
        attrs := attrs + [MultiPath(multipath.value)];
      }
    }
    return RouteMessage(RouteHeader(fam, r.route.len, table, RtnUnicast), attrs);
  }

  /** `build_route_message_v4`/`build_route_message_v6`: a default message
      (table 0, type unspecified) of the family with the given prefix length,
      carrying a `Destination` only when one is given. */
  function QueryMessage(fam: AddrFamily, destination: Option<IpAddr>, prefixLen: uint8): (m: RouteMessage)
    ensures m.header == RouteHeader(fam, prefixLen, 0, RtnUnspec)
    ensures |m.attributes| <= 1
    ensures destination.Some? <==> Destination(destination.GetOr(Unspecified(fam))) in m.attributes
  {
    RouteMessage(RouteHeader(fam, prefixLen, 0, RtnUnspec),
      if destination.Some? then [Destination(destination.value)] else [])
  }

  /** Read back, a query names the prefix it asks about, with no other field
      set; without a destination it names the unspecified address. */
  lemma QueryDescribesPrefix(fam: AddrFamily, destination: Option<IpAddr>, prefixLen: uint8)
    requires destination.Some? ==> FamilyOf(destination.value) == fam
    requires prefixLen as nat <= AddrBits(fam)
    ensures RouteOf(fam, QueryMessage(fam, destination, prefixLen)) ==
      Some(IpRoute(None, None, None, None, None, IpNet(destination.GetOr(Unspecified(fam)), prefixLen as nat), []))
  {
    var m := QueryMessage(fam, destination, prefixLen);
    if destination.Some? {
      LastUnique(m.attributes, PickDestination(fam), Destination(destination.value));
    } else {
      LastAbsent(m.attributes, PickDestination(fam));
    }
    LastAbsent(m.attributes, PickGateway);
    LastAbsent(m.attributes, PickSource(fam));
    LastAbsent(m.attributes, PickPriority);
    LastAbsent(m.attributes, PickOif);
    LastAbsent(m.attributes, PickTable);
    NoMultiPath(m.attributes);
  }

  /** No field is read from the multipath list. */
  lemma FieldsIgnoreMultipath<T>(fam: AddrFamily, r: IpRoute, pick: RouteAttribute -> Option<T>)
    requires RouteOfFamily(fam, r)
    requires forall x: RouteAttribute :: x.MultiPath? ==> pick(x).None?
    ensures Last(RouteMessageOf(fam, r).attributes, pick) == Last(FieldAttrs(fam, r), pick)
  {
    var tail := MultipathAttrs(fam, r);
    assert forall k :: 0 <= k < |tail| ==> tail[k] in tail;
    LastIgnoresSuffix(FieldAttrs(fam, r), tail, pick);
  }

  /** A field no attribute sets decodes as absent. */
  lemma LastAbsent<T>(attrs: seq<RouteAttribute>, pick: RouteAttribute -> Option<T>)
    requires forall x :: x in attrs ==> pick(x).None?
    ensures Last(attrs, pick).None?
  {
    LastCharacterized(attrs, pick);
  }

  /** The table a route comes back with from the kernel's point of view: no
      table means the main table, and table 0 reads back as no table. */
  function DecodedTable(table: Option<uint32>): Option<uint32> {
    match table
    case None => Some(RT_TABLE_MAIN as uint32)
    case Some(t) => if t == 0 then None else table
  }

  /** The route as its message decodes: interface 0 dropped, the table as the
      kernel reads it, and each next hop's weight as the wire can carry it. */
  function Canonical(r: IpRoute): IpRoute {
    r.(ifId := NonZero(r.ifId), table := DecodedTable(r.table),
       nexthops := seq(|r.nexthops|, k requires 0 <= k < |r.nexthops| => WireNormal(r.nexthops[k])))
  }

  /** The pushed attributes carry the route's prefix in one `Destination`. */
  lemma BuiltDestination(fam: AddrFamily, r: IpRoute)
    requires FamilyOf(r.route.addr) == fam
    ensures Last(FieldAttrs(fam, r), PickDestination(fam)) == Some(r.route.addr)
  {
    LastUnique(FieldAttrs(fam, r), PickDestination(fam), Destination(r.route.addr));
  }

  /** ... its gateway in at most one `Gateway` or `Via` ... */
  lemma BuiltGateway(fam: AddrFamily, r: IpRoute)
    ensures Last(FieldAttrs(fam, r), PickGateway) == r.gateway
  {
    if r.gateway.Some? {
      LastUnique(FieldAttrs(fam, r), PickGateway, GatewayAttrs(fam, r.gateway)[0]);
    } else {
      LastAbsent(FieldAttrs(fam, r), PickGateway);
    }
  }

  /** ... its preferred source ... */
  lemma BuiltSource(fam: AddrFamily, r: IpRoute)
    requires r.source.Some? ==> FamilyOf(r.source.value) == fam
    ensures Last(FieldAttrs(fam, r), PickSource(fam)) == r.source
  {
    if r.source.Some? {
      LastUnique(FieldAttrs(fam, r), PickSource(fam), PrefSource(r.source.value));
    } else {
      LastAbsent(FieldAttrs(fam, r), PickSource(fam));
    }
  }

  /** ... its metric ... */
  lemma BuiltMetric(fam: AddrFamily, r: IpRoute)
    ensures Last(FieldAttrs(fam, r), PickPriority) == r.metric
  {
    if r.metric.Some? {
      LastUnique(FieldAttrs(fam, r), PickPriority, Priority(r.metric.value));
    } else {
      LastAbsent(FieldAttrs(fam, r), PickPriority);
    }
  }

  /** ... its interface unless that is absent or 0 ... */
  lemma BuiltOif(fam: AddrFamily, r: IpRoute)
    ensures Last(FieldAttrs(fam, r), PickOif) == NonZero(r.ifId)
  {
    if NonZero(r.ifId).Some? {
      LastUnique(FieldAttrs(fam, r), PickOif, Oif(r.ifId.value));
    } else {
      LastAbsent(FieldAttrs(fam, r), PickOif);
    }
  }

  /** ... and a `Table` attribute only for a table beyond a byte ... */
  lemma BuiltTable(fam: AddrFamily, r: IpRoute)
    ensures Last(FieldAttrs(fam, r), PickTable) == if r.table.Some? && r.table.value > 0xff then r.table else None
  {
    if r.table.Some? && r.table.value > 0xff {
      LastUnique(FieldAttrs(fam, r), PickTable, Table(r.table.value));
    } else {
      LastAbsent(FieldAttrs(fam, r), PickTable);
    }
  }

  /** ... and its next hops in one trailing `MultiPath`. */
  lemma BuiltNextHops(fam: AddrFamily, r: IpRoute)
    requires RouteOfFamily(fam, r)
    ensures AllNextHops(RouteMessageOf(fam, r).attributes) == Canonical(r).nexthops
  {
    var head := FieldAttrs(fam, r);
    var tail := MultipathAttrs(fam, r);
    AllNextHopsAppend(head, tail);
    NoMultiPath(head);
    if |r.nexthops| > 0 {
      MultipathRoundTrip(fam, r.nexthops);
      assert tail[..0] == [];
      assert AllNextHops(tail) == NextHopsOf(MultipathOf(fam, r.nexthops).value);
    }
  }

  /** Decoding the message built for a route gives the route back, up to the
      normalisations of `Canonical`: prefix, gateway, source and metric exactly. */
  lemma RouteRoundTrip(fam: AddrFamily, r: IpRoute)
    requires RouteOfFamily(fam, r)
    ensures RouteOf(fam, RouteMessageOf(fam, r)) == Some(Canonical(r))
  {
    var attrs := RouteMessageOf(fam, r).attributes;
    assert Last(attrs, PickDestination(fam)) == Some(r.route.addr) by {
      FieldsIgnoreMultipath(fam, r, PickDestination(fam));
      BuiltDestination(fam, r);
    }
    assert Last(attrs, PickGateway) == r.gateway by {
      FieldsIgnoreMultipath(fam, r, PickGateway);
      BuiltGateway(fam, r);
    }
    assert Last(attrs, PickSource(fam)) == r.source by {
      FieldsIgnoreMultipath(fam, r, PickSource(fam));
      BuiltSource(fam, r);
    }
    assert Last(attrs, PickPriority) == r.metric by {
      FieldsIgnoreMultipath(fam, r, PickPriority);
      BuiltMetric(fam, r);
    }
    assert Last(attrs, PickOif) == NonZero(r.ifId) by {
      FieldsIgnoreMultipath(fam, r, PickOif);
      BuiltOif(fam, r);
    }
    assert Last(attrs, PickTable) == if r.table.Some? && r.table.value > 0xff then r.table else None by {
      FieldsIgnoreMultipath(fam, r, PickTable);
      BuiltTable(fam, r);
    }
    BuiltNextHops(fam, r);
  }
}
