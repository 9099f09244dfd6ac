/** Helpers of the `ftth-ip-neigh` command: reading a link-layer address,
    printing one, assembling the neighbour flags and mapping the `--state`
    argument onto the kernel's NUD states. */
module CliNeigh {
  import opened Common
  import opened Text

  /** The two messages `parse_lladdr` can fail with. */
  datatype LladdrError = EmptyComponent | BadComponent

  /** The bytes of the ':'-separated `parts`, or the error of the first part
      that is empty or is not a hex byte. */
  function LladdrBytes(parts: seq<string>): (r: Result<seq<uint8>, LladdrError>)
    ensures r.Ok? <==> forall k :: 0 <= k < |parts| ==> parts[k] != "" && ParseHexByte(parts[k]).Some?
    ensures r.Ok? ==> |r.value| == |parts|
    ensures r.Ok? ==> forall k :: 0 <= k < |parts| ==> ParseHexByte(parts[k]) == Some(r.value[k])
    ensures r == Err(EmptyComponent) ==> exists k :: 0 <= k < |parts| && parts[k] == ""
  {
    if |parts| == 0 then Ok([])
    else if parts[0] == "" then Err(EmptyComponent)
    else match ParseHexByte(parts[0])
      case None => Err(BadComponent)
      case Some(b) =>
        match LladdrBytes(parts[1..])
        case Err(e) => Err(e)
        case Ok(rest) => Ok([b] + rest)
  }

  /** What `parse_lladdr` returns: no address when none was given, otherwise
      one byte per ':'-separated part. */
  function LladdrOf(value: Option<string>): Result<Option<seq<uint8>>, LladdrError> {
    match value
    case None => Ok(None)
    case Some(s) =>
      match LladdrBytes(Split(s, ':'))
      case Err(e) => Err(e)
      case Ok(bytes) => Ok(Some(bytes))
  }

  /** The error is decided by the first part that is empty or not a byte. */
  lemma {:induction false} FirstBadPart(parts: seq<string>, i: nat)
    requires i < |parts|
    requires forall k :: 0 <= k < i ==> parts[k] != "" && ParseHexByte(parts[k]).Some?
    requires parts[i] == "" || ParseHexByte(parts[i]).None?
    ensures LladdrBytes(parts) == Err(if parts[i] == "" then EmptyComponent else BadComponent)
  {
    if i > 0 {
      FirstBadPart(parts[1..], i - 1);
    }
  }

  /** `parse_lladdr`: pushes byte after byte, returning at the first bad part. */
  method ParseLladdr(value: Option<string>) returns (r: Result<Option<seq<uint8>>, LladdrError>)
    ensures r == LladdrOf(value)
  {
    if value.None? {
      return Ok(None);
    }
    var parts := Split(value.value, ':');
    var bytes: seq<uint8> := [];
    for i := 0 to |parts|
      invariant |bytes| == i
      invariant forall k :: 0 <= k < i ==> parts[k] != "" && ParseHexByte(parts[k]) == Some(bytes[k])
    {
      var part := parts[i];
      if part == "" {
        FirstBadPart(parts, i);
        return Err(EmptyComponent);
      }
      match ParseHexByte(part)
      case None =>
        FirstBadPart(parts, i);
        return Err(BadComponent);
      case Some(b) =>
        bytes := bytes + [b];
    }
    assert LladdrBytes(parts).value == bytes;
    return Ok(Some(bytes));
  }

  /** `format_link_address`: each byte as two lowercase hex digits, joined by
      ':'; `n` bytes print as `3n - 1` characters and no bytes as "". */
  function FormatLinkAddress(bytes: seq<uint8>): (s: string)
    ensures |bytes| == 0 ==> s == ""
    ensures |bytes| >= 1 ==> |s| == 3 * |bytes| - 1
  {
    HexColonLength(bytes);
    HexColon(bytes)
  }

  /** A printed address of at least one byte reads back as the same bytes. */
  lemma LladdrRoundTrip(bytes: seq<uint8>)
    requires |bytes| >= 1
    ensures LladdrOf(Some(FormatLinkAddress(bytes))) == Ok(Some(bytes))
  {
    HexColonSplits(bytes);
    var parts := Split(FormatLinkAddress(bytes), ':');
    forall k | 0 <= k < |bytes|
      ensures parts[k] != "" && ParseHexByte(parts[k]) == Some(bytes[k])
    {
      Hex2Parses(bytes[k]);
    }
    assert LladdrBytes(parts).value == bytes;
  }

  /** ... but the empty address prints as "", which does not read back: its
      one part is empty. */
  lemma EmptyLladdrDoesNotRoundTrip()
    ensures LladdrOf(Some(FormatLinkAddress([]))) == Err(EmptyComponent)
  {
    assert Split("", ':') == [""];
  }

  /** A leading, trailing or doubled ':' leaves an empty part and is rejected. */
  lemma EmptyPartRejected(s: string, k: nat)
    requires k < |Split(s, ':')| && Split(s, ':')[k] == ""
    ensures LladdrOf(Some(s)).Err?
  {
  }

  // ---------------------------------------------------------------------------
  // build_flags
  // ---------------------------------------------------------------------------

  datatype NeighbourFlag = Router | Proxy | Sticky

  /** `build_flags`: each requested flag is inserted; an empty set is no flags. */
  method BuildFlags(router: bool, proxy: bool, sticky: bool) returns (flags: Option<set<NeighbourFlag>>)
    ensures flags.None? <==> !router && !proxy && !sticky
    ensures flags.Some? ==> (Router in flags.value <==> router)
    ensures flags.Some? ==> (Proxy in flags.value <==> proxy)
    ensures flags.Some? ==> (Sticky in flags.value <==> sticky)
  {
    var chosen: set<NeighbourFlag> := {};
    if router {
      chosen := chosen + {Router};
    }
    if proxy {
      chosen := chosen + {Proxy};
    }
    if sticky {
      chosen := chosen + {Sticky};
    }
    if chosen == {} {
      return None;
    }
    return Some(chosen);
  }

  // ---------------------------------------------------------------------------
  // StateArg::into_state
  // ---------------------------------------------------------------------------

  /** The values `--state` accepts. */
  datatype StateArg = Incomplete | Reachable | Stale | Delay | Probe | Failed | Noarp | Permanent | NoneState

  /** The kernel's neighbour states (NUD_*); `NudOther` is a code the library
      does not name. */
  datatype NeighbourState =
    | NudIncomplete | NudReachable | NudStale | NudDelay | NudProbe
    | NudFailed | NudNoarp | NudPermanent | NudNone | NudOther(code: uint16)

  /** The name `ip neigh` shows for an argument... */
  function ArgName(a: StateArg): string {
    match a
    case Incomplete => "incomplete"
    case Reachable => "reachable"
    case Stale => "stale"
    case Delay => "delay"
    case Probe => "probe"
    case Failed => "failed"
    case Noarp => "noarp"
    case Permanent => "permanent"
    case NoneState => "none"
  }

  /** ... and for a kernel state. */
  function StateName(s: NeighbourState): string {
    match s
    case NudIncomplete => "incomplete"
    case NudReachable => "reachable"
    case NudStale => "stale"
    case NudDelay => "delay"
    case NudProbe => "probe"
    case NudFailed => "failed"
    case NudNoarp => "noarp"
    case NudPermanent => "permanent"
    case NudNone => "none"
    case NudOther(_) => "other"
  }

  /** `into_state`: every argument becomes the kernel state of the same name,
      never an unnamed code. */
  function IntoState(a: StateArg): (s: NeighbourState)
    ensures !s.NudOther?
    ensures StateName(s) == ArgName(a)
  {
    match a
    case Incomplete => NudIncomplete
    case Reachable => NudReachable
    case Stale => NudStale
    case Delay => NudDelay
    case Probe => NudProbe
    case Failed => NudFailed
    case Noarp => NudNoarp
    case Permanent => NudPermanent
    case NoneState => NudNone
  }

  /** Different arguments select different states. */
  lemma IntoStateInjective(a: StateArg, b: StateArg)
    requires IntoState(a) == IntoState(b)
    ensures a == b
  {
  }

  /** Every named kernel state can be requested. */
  lemma IntoStateOnto(s: NeighbourState)
    requires !s.NudOther?
    ensures exists a :: IntoState(a) == s
  {
    var a := match s
      case NudIncomplete => Incomplete
      case NudReachable => Reachable
      case NudStale => Stale
      case NudDelay => Delay
      case NudProbe => Probe
      case NudFailed => Failed
      case NudNoarp => Noarp
      case NudPermanent => Permanent
      case _ => NoneState;
    assert IntoState(a) == s;
  }
}
