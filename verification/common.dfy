/** Vocabulary shared by every subsystem: fixed-width integers, IP addresses
    and prefixes, the outcomes the netlink transport hands back to a server
    loop, and the request/response loop that each subsystem server runs. */
module Common {

  type uint8 = x: int | 0 <= x < 0x100
  type uint16 = x: int | 0 <= x < 0x1_0000
  type uint32 = x: int | 0 <= x < 0x1_0000_0000

  datatype Option<+T> = None | Some(value: T) {
    function GetOr(default: T): T {
      match this
      case Some(v) => v
      case None => default
    }
  }

  datatype Result<+T, +E> = Ok(value: T) | Err(error: E)

  // ---------------------------------------------------------------------------
  // IP addresses and prefixes (the `ipnet` types are modelled, not imported)
  // ---------------------------------------------------------------------------

  type Ipv4Addr = bv32
  /** IPv6 addresses are kept as numbers: the model only compares their leading bits. */
  type Ipv6Addr = x: int | 0 <= x < 0x1_0000_0000_0000_0000_0000_0000_0000_0000

  function Pow2(k: nat): (r: nat)
    ensures r >= 1
  {
    if k == 0 then 1 else 2 * Pow2(k - 1)
  }

  /** The address family byte of a netlink header. */
  datatype Family = Inet | Inet6 | Unspec | OtherFamily

  /** The two families a request of this library names. */
  type AddrFamily = f: Family | f == Inet || f == Inet6 witness Inet

  datatype IpAddr = V4(v4: Ipv4Addr) | V6(v6: Ipv6Addr)

  function FamilyOf(a: IpAddr): (f: Family)
    ensures f == Inet || f == Inet6
  {
    if a.V4? then Inet else Inet6
  }

  /** Width in bits of an address of the family (0 for the families no prefix uses). */
  function AddrBits(f: Family): nat {
    match f
    case Inet => 32
    case Inet6 => 128
    case _ => 0
  }

  /** The all-zero address of a family (`UNSPECIFIED`). */
  function Unspecified(f: Family): IpAddr
    requires f == Inet || f == Inet6
  {
    if f == Inet then V4(0) else V6(0)
  }

  /** An `Ipv4Net`/`Ipv6Net`: the address keeps its host bits, as `ipnet` does. */
  datatype IpNet = IpNet(addr: IpAddr, len: nat)

  predicate ValidNet(n: IpNet) {
    n.len <= AddrBits(FamilyOf(n.addr))
  }

  /** `Ipv4Net::new` / `Ipv6Net::new` reject a prefix length wider than the address. */
  type Net = n: IpNet | ValidNet(n) witness IpNet(V4(0), 0)

  /** The host bits of a v4 prefix of length `len` (all zero for a /32). */
  function HostMask(len: nat): bv32
    requires len <= 32
  {
    0xFFFF_FFFF >> len
  }

  /** `ipnet`'s `contains`: the first `len` bits of `a` agree with the prefix's. */
  predicate Contains(n: Net, a: IpAddr) {
    match (n.addr, a)
    case (V4(p), V4(x)) => (p ^ x) & !HostMask(n.len) == 0
    case (V6(p), V6(x)) => p / Pow2(128 - n.len) == x / Pow2(128 - n.len)
    case _ => false
  }

  lemma ContainsOwnAddress(n: Net)
    ensures Contains(n, n.addr)
  {
    match n.addr
    case V4(p) => assert p ^ p == 0;
    case V6(p) =>
  }

  // ---------------------------------------------------------------------------
  // What the transport answers
  // ---------------------------------------------------------------------------

  /** The `std::io::ErrorKind` values this library inspects or produces. */
  datatype ErrorKind = NotFound | AlreadyExists | AddrNotAvailable | Unsupported | InvalidInput | OtherKind

  /** An `rtnetlink::Error`: a kernel error message (seen through `to_io().kind()`) or
      any other failure of the transport. */
  datatype RtnlError = NetlinkError(kind: ErrorKind) | OtherError

  /** The outcome of `execute()` on an add, set or delete request. */
  datatype Exec = ExecOk | ExecErr(err: RtnlError)

  /** A finite reply stream: the messages delivered, then either the end of the
      stream (`error == None`) or an error. */
  datatype Stream<M> = Stream(items: seq<M>, error: Option<RtnlError>)

  /** What one server-loop iteration answers, with the wire operations it issued
      on the way (empty when the request never reached the transport). */
  datatype Handled<R, Op> = Handled(response: R, ops: seq<Op>)

  /** The first non-zero interface index of a reply stream, in stream order;
      replies with index 0 are passed over. */
  function FirstNonZero(indices: seq<uint32>): (r: Option<uint32>)
    ensures r.None? <==> forall i :: 0 <= i < |indices| ==> indices[i] == 0
    ensures r.Some? ==> r.value != 0
    ensures r.Some? ==>
      exists i :: 0 <= i < |indices| && indices[i] == r.value && forall j :: 0 <= j < i ==> indices[j] == 0
  {
    if |indices| == 0 then None
    else if indices[0] != 0 then Some(indices[0])
    else FirstNonZero(indices[1..])
  }

  /** The `while let Some((req, respond)) = server.accept().await` loop that every
      subsystem runs: each request is handled to completion, against the kernel's
      answer for it, before the next is accepted, and receives exactly one response. */
  method Serve<Q, T, R>(handle: (Q, T) -> R, requests: seq<Q>, kernel: seq<T>) returns (responses: seq<R>)
    requires |kernel| == |requests|
    ensures |responses| == |requests|
    ensures forall i :: 0 <= i < |requests| ==> responses[i] == handle(requests[i], kernel[i])
  {
    responses := [];
    var i := 0;
    while i < |requests|
      invariant 0 <= i <= |requests|
      invariant |responses| == i
      invariant forall k :: 0 <= k < i ==> responses[k] == handle(requests[k], kernel[k])
    {
      responses := responses + [handle(requests[i], kernel[i])];
      i := i + 1;
    }
  }
}
