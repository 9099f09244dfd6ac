# ftth-rtnl in Dafny

ftth-rtnl is a Rust client library for Linux rtnetlink. Callers use synchronous
façades: `RtnlLinkClient`, `RtnlAddressClient`, `RtnlRouteClient` and
`RtnlVirtualInterfaceClient`. Each façade sends a request over a channel to an
async server loop. The loop talks to the kernel through the `rtnetlink` crate
and answers with exactly one typed response. The façade then turns that
response into an `io::Result`.

This project models the sequential logic around that transport:

- **Route codec** (`route_codec.dfy`). It covers:
  - decoding a route message into an `Ipv4Route`/`Ipv6Route`: family filter, last attribute wins, 0 read as "none", and a `Table` attribute overriding the header byte;
  - the route message built for add and delete;
  - the lookup queries;
  - the multipath next-hop encoding and its weight ↔ `rtnh_hops` conversion.
- **Route server and client** (`route.dfy`). It covers listing, the lookup loop (which skips local and broadcast entries), mapping kernel errors to responses, and mapping responses back to façade errors.
- **Virtual interfaces**:
  - `nla.dfy`: the netlink attribute byte encoder (`struct nlattr`: u16 length, u16 type, value, zero padding to 4 bytes), with a walker that reads the bytes back.
  - `tunnel.dfy`: the GRE, GRE6, IPIP and ip6tnl attribute lists.
  - `virtual_interface.dfy`: VLAN validation, the kind tables, the server's four request branches, and the façade mappings.
- **Addresses** (`address.dfy`). It covers the IPv4 broadcast computation, the delete message for multicast and unicast addresses, the per-request branches of the server, and the façade mappings.
- **Links** (`link.dfy`). It covers `MacAddr`, the three handled request branches, and the façade mappings.
- **Command-line helpers** (`cli_link.dfy`, `cli_neigh.dfy`). These are the MAC, on/off flag and link-layer address parsers of the `ftth-ip-link` and `ftth-ip-neigh` examples, the link-layer address printer, neighbour flag building and the `--state` mapping. `text.dfy` holds the string pieces they share:
  - hex digits;
  - `split(':')` and `join`;
  - ASCII lowercasing;
  - `u8::from_str_radix(_, 16)`.

Modelling choices:

- **The transport is an input.** `Exec` is the outcome of an add, set or delete. `Stream` is a dump: a finite list of replies with an optional trailing error.
- **Each server branch is a pure function.** It maps a request and the kernel's answers to `Handled(response, ops)`, where `ops` lists the wire operations issued. "Nothing reaches the wire" is therefore `ops == []`.
- **Loops the source writes as loops are methods.** Examples are the attribute walk of the decoder, the list and lookup loops, and `encode_default_nlas`. Each method is proved equal to a specification function, and the properties are proved about that function.
- **The v4 and v6 twins share one definition**, parameterised by the address family: decode, build, list and the clients.
- **`Common.Serve`** models the `accept` loop every subsystem runs: one response per request, in order.

At these edges the model follows the code as written:

- Deleting a virtual interface `ByIndex(0)` sends index 0 to the kernel. No short-circuit exists (`src/virtual_interface.rs:376`).
- Address set and delete on index 0 answer `Failed`, not `NotFound`.
- The link server answers `InterfaceGet` (lookup by index) with `NotImplemented`.

Behaviour of the `rtnetlink` crate that the model assumes (that crate is not part of this model):

- `RouteMessageBuilder::new()` sets the header table to the main table (254) and the type to unicast.
- `table_id(t)` stores `t` in the header byte when `t ≤ 255`, and otherwise pushes a `Table` attribute.
- `destination_prefix` always pushes a `Destination` attribute.
- `output_interface`, `gateway`, `pref_source`, `priority` and `multipath` each push exactly one attribute, in the order they are called.
- The address dump's interface filter is applied by the library. The model only records which filter was requested.

## Model

| member | source | states |
|---|---|---|
| RouteCodec.WeightToHops | src/route.rs:796-798 | weight 1..256 becomes weight−1, weight 0 becomes 0, larger weights saturate at 255 |
| RouteCodec.HopsToWeight | src/route.rs:714 | the decoded weight is hops+1, always within 1..256 |
| RouteCodec.HopsRoundTrip | src/route.rs:714 | encoding a decoded weight gives back the wire hop count |
| RouteCodec.WeightRoundTrip | src/route.rs:796-798 | weights 1..256 come back unchanged, weight 0 comes back as 1, weights above 256 come back as 256 |
| RouteCodec.NonZero | src/route.rs:715-718 | interface 0 is read as none; any other value is kept |
| RouteCodec.NextHopOf | src/route.rs:697-725 | a wire next hop decodes with interface 0 as none, weight hops+1 and the flags unchanged |
| RouteCodec.NextHopsOf | src/route.rs:695-728 | one decoded entry per wire next hop, in order |
| RouteCodec.ConvertMultipath | src/route.rs:695-728 | the push loop returns exactly the decoded list of next hops |
| RouteCodec.GatewayAttrs | src/route.rs:739-751 | a gateway of the route's family becomes `Gateway`, one of the other family becomes `Via`, no gateway adds nothing |
| RouteCodec.WireNextHop | src/route.rs:733-751 | the wire next hop carries the flags, hops = WeightToHops(weight), interface 0 for none, and the gateway attribute |
| RouteCodec.MultipathOf | src/route.rs:730-761 | none if and only if there are no entries; otherwise one wire next hop per entry, in the same order |
| RouteCodec.BuildMultipath | src/route.rs:730-761 | the push loop returns exactly that list (the v6 twin is src/route.rs:763-794) |
| RouteCodec.WireNormal | src/route.rs:714 | an entry as the wire carries it keeps its gateway and flags |
| RouteCodec.NextHopRoundTrip | src/route.rs:695-761 | decoding an encoded next hop gives the entry back, with interface and gateway exact and the weight saturated |
| RouteCodec.MultipathRoundTrip | src/route.rs:695-761 | a non-empty next-hop list survives encode then decode entry by entry |
| RouteCodec.TableFromHeader | src/route.rs:691-693 | header byte 0 gives none; any other byte gives that table |
| RouteCodec.LastCharacterized | src/route.rs:613-629 | the decoded value of a repeated attribute is none if and only if no attribute matches, and otherwise comes from the last match |
| RouteCodec.LastUnique | src/route.rs:613-629 | an attribute that is the only match is the one decoded |
| RouteCodec.AllNextHopsAppend | src/route.rs:624-626 | the next hops of two attribute runs are their concatenation |
| RouteCodec.RouteOf | src/route.rs:599-643 | a route exists if and only if the family matches and the prefix length fits; its prefix and source are of that family; the interface is never 0; the table is none if and only if the header byte is 0 and no `Table` attribute exists (the v6 twin is src/route.rs:645-689) |
| RouteCodec.DecodeRoute | src/route.rs:599-643 | the attribute loop computes exactly RouteOf |
| RouteCodec.LastIgnoresSuffix | src/route.rs:613-629 | attributes that do not match, appended after the rest, leave a decoded field unchanged |
| RouteCodec.LastWins | src/route.rs:613-629 | of repeated scalar attributes the last one wins |
| RouteCodec.TableOverridesHeader | src/route.rs:609-623 | a `Table` attribute overrides the header's table byte |
| RouteCodec.MultiPathsConcatenate | src/route.rs:624-626 | two `MultiPath` attributes decode to the concatenation of their next hops (the two-attribute case of AllNextHopsAppend) |
| RouteCodec.HeaderTable | src/route.rs:543-545 | table ids up to 255 go in the header byte; none or larger ids leave it at the main table (254) |
| RouteCodec.FieldAttrs | src/route.rs:513-545 | the built attributes always carry the destination, never interface 0 and no `MultiPath` |
| RouteCodec.MultipathAttrs | src/route.rs:547-551 | one `MultiPath` attribute if and only if the route has next hops |
| RouteCodec.RouteMessageOf | src/route.rs:513-554 | the add/delete message has header (family, prefix length, HeaderTable, unicast), carries the destination and never interface 0 (the v6 twin is src/route.rs:556-597) |
| RouteCodec.BuildRouteMessage | src/route.rs:513-554 | the builder's sequence of pushes produces exactly RouteMessageOf |
| RouteCodec.QueryMessage | src/route.rs:465-487 | the lookup query has header (family, length, table 0, unspecified type) and a destination attribute if and only if one is given |
| RouteCodec.QueryDescribesPrefix | src/route.rs:465-487 | a lookup query decodes to a route of exactly the queried prefix with no other fields |
| RouteCodec.BuiltDestination | src/route.rs:514-515 | the built message decodes the route's own prefix address |
| RouteCodec.BuiltGateway | src/route.rs:521-533 | the built message decodes the route's gateway, whatever its family |
| RouteCodec.BuiltSource | src/route.rs:535-537 | the built message decodes the route's preferred source |
| RouteCodec.BuiltMetric | src/route.rs:539-541 | the built message decodes the route's metric |
| RouteCodec.BuiltOif | src/route.rs:517-519 | the built message decodes the interface, with 0 read as none |
| RouteCodec.BuiltTable | src/route.rs:543-545 | a `Table` attribute is present exactly for table ids above 255 |
| RouteCodec.BuiltNextHops | src/route.rs:547-551 | the built message decodes the next hops as the wire carries them |
| RouteCodec.RouteRoundTrip | src/route.rs:513-643 | decoding a built route message gives the route back, with interface 0 as none, no table as the main table, table 0 as none, and weights saturated |
| Route.ListQuery | src/route.rs:260-261 | the dump query is of the listed family and carries no attributes |
| Route.RoutesOf | src/route.rs:259-301 | the listed routes are at most as many as the messages, each of the listed family |
| Route.ListedRoutesAreDecoded | src/route.rs:259-301 | every listed route is the decoding of some dumped message |
| Route.DecodedMessagesAreListed | src/route.rs:259-301 | every dumped message that decodes appears in the list |
| Route.ListResponse | src/route.rs:259-301 | a dump error makes the whole listing `Failed`; otherwise the list of the requested family, no longer than the dump |
| Route.ListRoutes | src/route.rs:259-301 | the accumulating loop answers exactly ListResponse |
| Route.Candidate | src/route.rs:427-438 | a message is a candidate only if it is not local or broadcast, decodes, and satisfies the selector |
| Route.FirstMatch | src/route.rs:403-416 | none if and only if no message is a candidate; otherwise the first candidate in stream order |
| Route.LookupResponse | src/route.rs:393-417 | the first candidate is answered; without one, a stream error gives `Failed` and the end of the stream gives `NotFound` |
| Route.LookupRoute | src/route.rs:393-463 | the early-returning loop answers exactly LookupResponse |
| Route.ZeroPrefixQueryIsBare | src/route.rs:360-368 | a /0 prefix query carries no `Destination`; any other carries exactly the prefix address |
| Route.QueriesDescribeTarget | src/route.rs:349-369 | the get query describes the full-length host prefix of the destination; the prefix query describes the prefix itself |
| Route.MapRouteResult | src/route.rs:489-511 | Ok gives `Success`, netlink not-found gives `NotFound`, every other error, already-exists included, gives `Failed` |
| Route.Handle | src/route.rs:216-238 | each request issues exactly its one wire operation; add and delete answer MapRouteResult; a get and a by-prefix get answer LookupResponse of the dump for the destination or the prefix; only a get or a by-prefix get answers a route, for IPv4 and IPv6 alike; a get answer contains the destination; a by-prefix answer equals the prefix; nothing answers `NotImplemented` |
| Route.GetFindsFirstContainingRoute | src/route.rs:349-353 | a get answer is the decoding of the first non-local, non-broadcast dumped message whose prefix contains the destination |
| Route.PrefixGetAnswersFirstCandidate | src/route.rs:355-369 | a by-prefix get answers a route if and only if some dumped message is a candidate for the prefix, and then answers the first such candidate in stream order |
| Route.LocalEntriesSkipped | src/route.rs:428-430 | local and broadcast entries are never returned by a lookup |
| Route.HandleRouteStatus | src/route.rs:240-257 | only `Success` is Ok; `NotFound` gives a not-found error, `NotImplemented` gives unsupported, anything else gives an "other" error |
| Route.RouteListResult | src/route.rs:110-118 | only a list of the requested family is Ok, and it is returned unchanged; any other answer is an "other" error (v6 at src/route.rs:173-181) |
| Route.RouteGetResult | src/route.rs:120-134 | only a route of the requested family is Ok; `NotFound` gives a not-found error, anything else an "other" error |
| Route.AddExistingRouteFails | src/route.rs:89-94 | adding a route that already exists is an error at the façade: add is not idempotent |
| Route.KernelNotFoundOnDeleteIsNotFound | src/route.rs:103-108 | a kernel not-found error on delete reaches the façade as not-found |
| Route.LookupMissIsNotFound | src/route.rs:120-134 | a get with no matching route is not-found at the façade, or an "other" error when the dump failed |
| Route.ListingReachesClient | src/route.rs:110-118 | without a dump error the façade returns exactly the decoded routes of the dump |
| Nla.AlignNla | src/virtual_interface.rs:197-199 | the least multiple of 4 that is at least the length |
| Nla.U16Bytes | src/virtual_interface.rs:625-628 | a u16 field is 2 bytes |
| Nla.U32Bytes | src/virtual_interface.rs:487 | a u32 value is 4 bytes |
| Nla.Zeros | src/virtual_interface.rs:623 | a zero fill of the requested size |
| Nla.EncodeNla | src/virtual_interface.rs:619-630 | an attribute occupies AlignNla(value length + 4) bytes |
| Nla.EncodeNlaLayout | src/virtual_interface.rs:619-630 | the bytes are: the u16 length (value length + 4, truncated to 16 bits), the u16 kind, the value, then zero padding |
| Nla.EncodedNlas | src/virtual_interface.rs:616-633 | the buffer is a multiple of 4 long and holds at least one header per attribute |
| Nla.EncodedAppend | src/virtual_interface.rs:616-633 | encoding one more attribute appends exactly its slot |
| Nla.EncodeDefaultNlas | src/virtual_interface.rs:616-633 | the resize-and-write loop produces exactly EncodedNlas |
| Nla.U16RoundTrip | src/virtual_interface.rs:625-628 | a u16 written in the chosen byte order reads back |
| Nla.ParseOne | src/virtual_interface.rs:616-633 | a walker that follows the length fields reads one encoded attribute back and continues after its slot |
| Nla.EncodeParseRoundTrip | src/virtual_interface.rs:616-633 | walking the length fields of an encoded list recovers the (kind, value) list |
| Tunnel.Ipv4Octets | src/virtual_interface.rs:453-457 | a v4 address is 4 bytes |
| Tunnel.Ipv6Octets | src/virtual_interface.rs:495-499 | a v6 address is 16 bytes |
| Tunnel.FindEmit | src/virtual_interface.rs:451-491 | in a list built from distinct kinds, each kind reads back its own optional value |
| Tunnel.EmitFollowsOrder | src/virtual_interface.rs:451-491 | a list built from slots in a fixed order emits its attributes in that order |
| Tunnel.GreAttributes | src/virtual_interface.rs:451-491 | GRE attributes come in the fixed order LOCAL, REMOTE, [TTL], [TOS], [IKEY, OKEY], ENCAP_LIMIT, PMTUDISC, IGNORE_DF, [LINK]; LOCAL and REMOTE always; TTL, TOS and LINK only when set; IKEY and OKEY equal, big-endian, and present if and only if a key is set; ENCAP_LIMIT defaults to 0xff; PMTUDISC and IGNORE_DF are one byte, 1 or 0 |
| Tunnel.PushGreNlas | src/virtual_interface.rs:451-491 | the sequence of pushes produces exactly GreAttributes |
| Tunnel.GreNlas | src/virtual_interface.rs:451-491 | the v4 GRE list is GreAttributes of the 4-byte addresses |
| Tunnel.Gre6Nlas | src/virtual_interface.rs:493-533 | the v6 GRE list is GreAttributes of the 16-byte addresses, hop limit and traffic class |
| Tunnel.IptunAttributes | src/virtual_interface.rs:535-614 | IPIP attributes come in a fixed order; LOCAL, REMOTE, ENCAP_LIMIT (default 0xff) and PMTUDISC always; TTL, TOS and LINK only when set; FLOWINFO big-endian and present if and only if a flow label is set; no key or ignore-df attribute exists; every value is an address or at most 4 bytes |
| Tunnel.PushIptunNlas | src/virtual_interface.rs:535-614 | the sequence of pushes produces exactly IptunAttributes |
| Tunnel.IptunnelV4Nlas | src/virtual_interface.rs:535-570 | the IPIP list has no flow label |
| Tunnel.IptunnelV6Nlas | src/virtual_interface.rs:572-614 | the ip6tnl list carries FLOWINFO exactly when a flow label is set |
| VirtualInterface.ValidateCreateKind | src/virtual_interface.rs:333-348 | only a VLAN can be refused; a missing parent is reported first, then a missing id |
| VirtualInterface.KindToInfoKind | src/virtual_interface.rs:397-407 | only ip6tnl is announced under the free-form kind "ip6tnl" |
| VirtualInterface.InfoKindDistinguishesKinds | src/virtual_interface.rs:397-407 | two kinds share an info kind if and only if they are the same variant |
| VirtualInterface.VirtualInterfaceLink | src/virtual_interface.rs:409-417 | a VLAN's link is its parent index, and a VLAN that passed validation always has one |
| VirtualInterface.LinkMatchesInfoData | src/virtual_interface.rs:409-417 | for every tunnel kind the message's link and the tunnel's own LINK attribute agree: both absent, or the attribute holds the link index in the machine's byte order |
| VirtualInterface.BuildInfoData | src/virtual_interface.rs:419-449 | the info data matches the kind; GRE and GRETAP carry `gre_nlas` and IP6GRE and IP6GRETAP `gre6_nlas` of their configuration; IPIP and ip6tnl bytes walk back to their attribute lists; VLAN data holds one id exactly when the id is set |
| VirtualInterface.BuildCreateMessage | src/virtual_interface.rs:315-331 | validation runs before anything is built and its error is returned unchanged; the message has index 0, the given name, the kind's info kind and data, is up exactly when requested, and a VLAN's link is its parent; the info data is BuildInfoData of the kind and the link is VirtualInterfaceLink of the kind |
| VirtualInterface.BuildUpdateMessage | src/virtual_interface.rs:350-369 | the update targets the given index with the new name, the requested state and the kind's info kind; its info data is BuildInfoData of the kind and its link VirtualInterfaceLink of the kind |
| VirtualInterface.NetlinkErrorToResponse | src/virtual_interface.rs:308-313 | not-found becomes `NotFound`, anything else becomes `Failed` |
| VirtualInterface.ExecResponse | src/virtual_interface.rs:229-243 | `Success` if and only if the kernel accepted, `NotFound` if and only if it reported not-found, never an index |
| VirtualInterface.ResolveIndexByName | src/virtual_interface.rs:383-395 | the search loop returns the first non-zero index of the replies, none when there is none (a stream error ends the search) |
| VirtualInterface.Handle | src/virtual_interface.rs:216-306 | a refused create reaches no wire; an accepted create sends exactly the built create message and answers the kernel's outcome; delete by index sends the index as given and answers the kernel's outcome; delete by a resolved name looks the name up, deletes the first non-zero index and answers the kernel's outcome; delete by an unresolved name is `NotFound` after only the lookup; a name lookup sends one dump and answers `Index` of its first non-zero index, or `NotFound`; an `Index` answer is never 0; `Success` only when the kernel accepted |
| VirtualInterface.HandleBasicResponse | src/virtual_interface.rs:201-214 | only `Success` is Ok; `NotFound` gives a not-found error; `Failed` and `Index` give an "other" error |
| VirtualInterface.GetIndexByNameResult | src/virtual_interface.rs:68-84 | only an `Index` answer is Ok and returns that index; `NotFound` gives a not-found error |
| VirtualInterface.LookupReachesCaller | src/virtual_interface.rs:68-84 | a name that resolves reaches the caller as its first non-zero index |
| Address.BroadcastOf | src/address.rs:119-125 | the broadcast address lies inside the prefix |
| Address.BroadcastSetsHostBits | src/address.rs:119-125 | it is the address with all host bits set, and the address itself for a /32 |
| Address.BroadcastIsHighest | src/address.rs:119-125 | every address in the prefix is at or below the broadcast address |
| Address.BroadcastExamples | src/address.rs:119-125 | 192.0.2.1/24 gives 192.0.2.255, /0 gives 255.255.255.255, /32 gives the address |
| Address.BuildIpv4Message | src/address.rs:104-132 | the header copies family, index and length; a multicast address gets no attributes; any other gets exactly Address, Local, Broadcast in that order |
| Address.BuildIpv6Message | src/address.rs:134-153 | the header copies family, index and length; a multicast address gets only `Multicast`; any other gets Address then Local |
| Address.BuildAddressMessage | src/address.rs:104-153 | the message is of the address's family |
| Address.DeleteNamesTarget | src/address.rs:104-153 | the delete message names the target's family, index and length, and carries it as Address and Local exactly when it is not multicast |
| Address.MulticastV4DeleteIsBare | src/address.rs:110-131 | a v4 multicast delete carries no attributes |
| Address.AddressesIn | src/address.rs:201-208 | only addresses of the requested family are taken from a reply |
| Address.AddressesOf | src/address.rs:187-235 | the listed addresses are all of the requested family |
| Address.AddressesInMembers | src/address.rs:201-208 | an address is taken from a reply if and only if it is one of the reply's `Address` attributes and of the family |
| Address.AddressesOfMembers | src/address.rs:187-235 | an address is listed if and only if some reply of the family carries it as `Address` |
| Address.AddressesOfAppend | src/address.rs:187-235 | the listing keeps stream order |
| Address.CollectAddresses | src/address.rs:187-235 | the `while let` loop collects exactly AddressesOf |
| Address.V4s | src/address.rs:201-210 | the v4 list holds the same addresses in the same order |
| Address.V6s | src/address.rs:226-235 | the v6 list holds the same addresses in the same order |
| Address.ListResponse | src/address.rs:187-235 | the answer is a list of the requested version, as long as the collected list |
| Address.AddResponse | src/address.rs:250-267 | an add succeeds if and only if the kernel accepted or reported already-exists; otherwise `Failed` |
| Address.DelResponse | src/address.rs:313-343 | success if and only if the kernel accepted; not-found or address-not-available gives `NotFound`; anything else `Failed` |
| Address.Handle | src/address.rs:184-392 | a list issues one dump, filtered by the index unless it is 0; set and delete on index 0 answer `Failed` and reach no wire; otherwise each issues its one operation; a list answers ListResponse of the dump, a set AddResponse and a delete DelResponse of the kernel's outcome; nothing answers `NotImplemented` |
| Address.ListingIsCollected | src/address.rs:187-235 | the listing answer holds exactly the collected addresses |
| Address.AddrsGetRequest | src/address.rs:49-73 | the façade asks for its own version, with no index or 0 meaning all interfaces |
| Address.NoInterfaceMeansAll | src/address.rs:49-73 | without an interface the dump is unfiltered |
| Address.Ipv4AddrsResult | src/address.rs:49-60 | only a v4 list is Ok and is returned unchanged; anything else is an "other" error |
| Address.Ipv6AddrsResult | src/address.rs:62-73 | only a v6 list is Ok and is returned unchanged; anything else is an "other" error |
| Address.HandleBasicResponse | src/address.rs:155-182 | only `Success` is Ok; `NotImplemented` gives unsupported, `NotFound` gives not-found, everything else an "other" error |
| Address.AddIsIdempotent | src/address.rs:250-267 | adding an address that already exists is Ok at the façade |
| Address.DeleteMissingIsNotFound | src/address.rs:313-343 | deleting an address the kernel does not have is not-found at the façade |
| Address.IndexZeroRefused | src/address.rs:237-241 | set and delete on index 0 are errors at the façade |
| Link.DefaultMac | src/link.rs:25-31 | the default MAC is all zeros |
| Link.Display | src/link.rs:39-51 | six two-digit lowercase hex bytes joined by ':', always 17 characters |
| Link.LastIfName | src/link.rs:181-189 | none if and only if the reply has no `IfName`; otherwise the last one |
| Link.InterfacesOf | src/link.rs:175-197 | the listed interfaces are no more than the replies and never have index 0 |
| Link.InterfacesOfAppend | src/link.rs:175-197 | the listing keeps stream order |
| Link.EntryOfReply | src/link.rs:180-195 | a reply with index 0 or without a name is dropped; any other gives (last name, index) |
| Link.ListInterfaces | src/link.rs:175-197 | the push loop lists exactly InterfacesOf |
| Link.Indices | src/link.rs:143-147 | the header indices of the replies, in order |
| Link.FirstLinkIndex | src/link.rs:140-153 | the early-exit loop returns the first non-zero index |
| Link.FirstAddressIn | src/link.rs:163-171 | none if and only if the reply has no `Address`; otherwise the first one |
| Link.FirstAddress | src/link.rs:154-174 | none if and only if no reply has an `Address`; otherwise the `Address` of the first reply, in stream order, that has one |
| Link.HandleAsWritten | src/link.rs:154-174 | the handler as written: it fails (the slice panics) exactly on a MAC get whose first address is shorter than 6 bytes, and otherwise answers as Link.Handle |
| Link.FindAddress | src/link.rs:154-174 | the early-exit loop returns exactly FirstAddress |
| Link.MacFromAddressAsWritten | src/link.rs:166 | the slice `addr[0..6]` exists if and only if the address has at least 6 bytes, and is its first 6 bytes |
| Link.ShortAddressPanics | src/link.rs:166 | a 4-byte IPIP tunnel address makes the slice fail |
| Link.MacFromAddress | src/link.rs:166 | the first 6 bytes when there are 6, otherwise the zero fallback |
| Link.Handle | src/link.rs:137-200 | a list answers InterfacesOf; get-by-name answers the requested name with the first non-zero index, or `NotFound`; MAC get on index 0 answers `NotFound` with no wire call; MAC get is `NotFound` exactly when no `Address` exists, and otherwise answers the first 6 bytes of the first address, or the all-zero MAC for a shorter one; everything else answers `NotImplemented` |
| Link.InterfaceGetByNameResult | src/link.rs:102-112 | only an `Interface` answer is Ok; any other is an "other" error, not a not-found one |
| Link.MacAddrGetResult | src/link.rs:114-123 | a `MacAddr` answer gives that MAC; any other answer gives Ok(None) |
| Link.InterfaceListResult | src/link.rs:125-134 | only a list answer is Ok and is returned unchanged; anything else is an "other" error |
| Link.MacOfIndexZero | src/link.rs:154-158 | a MAC get on index 0 reaches the caller as Ok(None) |
| Common.FirstNonZero | src/virtual_interface.rs:383-395 | none if and only if every index is 0; otherwise the first non-zero index in order |
| Common.Serve | src/link.rs:137-200 | every request gets exactly one response, its handler's answer, in order |
| Link.RunServer | src/link.rs:137-200 | the link server answers every request, in order, with Link.Handle's response to it |
| Text.HexValue | examples/ftth-ip-link.rs:214 | a hex digit's value is below 16 |
| Text.HexDigit | src/link.rs:39-51 | a lowercase hex digit of the given value |
| Text.Hex2 | src/link.rs:39-51 | `{:02x}`: two hex digits whose value is the byte |
| Text.Split | examples/ftth-ip-link.rs:204 | at least one part, none containing the separator |
| Text.SplitJoin | examples/ftth-ip-neigh.rs:288-294 | splitting a join of separator-free parts gives the parts back |
| Text.HexParts | examples/ftth-ip-neigh.rs:288-294 | one `{:02x}` part per byte |
| Text.HexColonLength | examples/ftth-ip-neigh.rs:288-294 | no bytes print as ""; n bytes print as 3n−1 characters |
| Text.HexColonSplits | examples/ftth-ip-neigh.rs:288-294 | splitting a printed address on ':' gives one part per byte |
| Text.ParseHexByte | examples/ftth-ip-link.rs:214 | `u8::from_str_radix(_, 16)`: after one optional '+', a non-empty run of hex digits whose value is below 0x100 |
| Text.Hex2Parses | examples/ftth-ip-link.rs:214 | a printed byte parses back to the same byte |
| CliLink.MacOf | examples/ftth-ip-link.rs:203-222 | Ok if and only if the input splits into 6 parts that are all hex bytes; byte i is part i; every failure is InvalidInput |
| CliLink.ParseMac | examples/ftth-ip-link.rs:203-222 | the array-filling loop returns exactly MacOf |
| CliLink.ParseDisplayedMac | examples/ftth-ip-link.rs:203-222 | parsing a displayed MAC gives the same six bytes |
| CliLink.WrongPartCount | examples/ftth-ip-link.rs:205-210 | any part count other than 6 is InvalidInput |
| CliLink.MacExample | examples/ftth-ip-link.rs:212-221 | a leading '+', either letter case and a single digit per part are all accepted |
| CliLink.MacByteOverflowExample | examples/ftth-ip-link.rs:212-221 | a part above 0xff is refused |
| CliLink.ParseBoolFlag | examples/ftth-ip-link.rs:224-233 | true if and only if the lowercased word is up/enable/enabled/true/on; false if and only if it is down/disable/disabled/false/off; otherwise an error quoting the word |
| CliLink.LowerUpper | examples/ftth-ip-link.rs:225 | lowercasing ignores a prior uppercasing |
| CliLink.BoolFlagIgnoresCase | examples/ftth-ip-link.rs:225 | words equal after lowercasing parse alike |
| CliLink.BoolFlagUpper | examples/ftth-ip-link.rs:225 | an uppercased flag word parses as the word |
| CliLink.BoolFlagExamples | examples/ftth-ip-link.rs:224-233 | "Enabled" is true, "OFF" is false, "yes" is an error |
| CliNeigh.LladdrBytes | examples/ftth-ip-neigh.rs:217-226 | Ok if and only if every part is non-empty and a hex byte; one byte per part, in order; an empty-part error names a part that is empty |
| CliNeigh.FirstBadPart | examples/ftth-ip-neigh.rs:217-226 | the first bad part decides the error: empty part, or bad component |
| CliNeigh.ParseLladdr | examples/ftth-ip-neigh.rs:214-230 | the early-returning loop returns exactly LladdrOf, and no address when none is given |
| CliNeigh.FormatLinkAddress | examples/ftth-ip-neigh.rs:288-294 | no bytes print as ""; n bytes print as 3n−1 characters |
| CliNeigh.LladdrRoundTrip | examples/ftth-ip-neigh.rs:214-230 | a printed address of at least one byte parses back to the same bytes |
| CliNeigh.EmptyLladdrDoesNotRoundTrip | examples/ftth-ip-neigh.rs:214-230 | the empty address prints as "", which is refused as an empty part |
| CliNeigh.EmptyPartRejected | examples/ftth-ip-neigh.rs:218-220 | a leading, trailing or doubled ':' is refused |
| CliNeigh.BuildFlags | examples/ftth-ip-neigh.rs:232-244 | none if and only if no flag is requested; otherwise exactly the requested flags |
| CliNeigh.IntoState | examples/ftth-ip-neigh.rs:246-260 | each argument becomes the kernel state of the same name, never an unnamed code |
| CliNeigh.IntoStateInjective | examples/ftth-ip-neigh.rs:246-260 | different arguments give different states |
| CliNeigh.IntoStateOnto | examples/ftth-ip-neigh.rs:246-260 | every named kernel state can be requested |

## Left out

- Async execution, the tokio runtime, the worker thread, the channels (`send_request`/`accept`), stream pinning and `log::warn!` calls. `src/lib.rs` is not part of this model beyond `Common.Serve`'s one-response-per-request loop.
- `src/neighbor.rs`: its request type is empty and its server answers `NotImplemented` to everything.
- The `rtnetlink` and `netlink-packet-route` crates. Messages are records holding a header and an attribute list, and a kernel answer is an input. The behaviour of `RouteMessageBuilder`, `LinkMessageBuilder` and `AddressHandle::add` is not part of this model. The builder semantics listed above are assumptions.
- The byte encoding of everything except the hand-built tunnel attribute lists.
- Native endianness (`to_ne_bytes`) is a parameter `Endian`, not a fixed machine order.
- The u16 length field of an attribute is written out as truncation to 16 bits, exactly as the cast does. The read-back lemmas require value length + 4 < 65536.
- Text error messages and the operation names attached to errors: errors are modelled by their `io::ErrorKind` only.
- The `_ =>` arms that cannot be reached for the request types modelled.
- The command-line examples other than the helpers named in the table: argument wiring, client calls, printing and the interface-resolving helpers.
- Link requests other than list, get-by-name and MAC get are modelled only as answering `NotImplemented`.
- `to_lowercase` is ASCII-only here. Rust lowercases the full Unicode range, which makes no difference to the ASCII flag words.
- Address.ListResponse: states only the answer's version and length. The contents are stated by Address.ListingIsCollected.
- VirtualInterface.VirtualInterfaceLink: the tunnel kinds' pass-through of their configured link is stated by VirtualInterface.LinkMatchesInfoData, as agreement with the tunnel's LINK attribute, not by its own contract.
- Link.Handle: answers the all-zero MAC for an address shorter than six bytes, where the code as written panics; Link.HandleAsWritten models the code as written (see Findings).
- Address.BuildIpv4Message and Address.BuildIpv6Message: the successive pushes onto the message are written as a single attribute list, because there is no loop and no intermediate state to observe.

## Findings

| source | as written | input that shows it | evidently intended | confidence | as-written member | corrected member |
|---|---|---|---|---|---|---|
| src/link.rs:166 | `addr[0..6].try_into().unwrap_or([0; 6])` slices before converting, so the slice panics on an address shorter than 6 bytes; the zero fallback can never be reached | a MAC get for an IPIP tunnel, whose `IFLA_ADDRESS` is the 4-byte local address, e.g. [192, 0, 2, 1] | fall back to the all-zero MAC for a short address | not executed | Link.MacFromAddressAsWritten, Link.ShortAddressPanics, Link.HandleAsWritten | Link.MacFromAddress |
