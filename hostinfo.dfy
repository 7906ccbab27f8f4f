/** `LookupHostInfo` of hostinfo.go: the identity a host reports, its name, the
    first IPv4 address of a network interface and that interface's hardware
    address. The operating system is not modelled: `os.Hostname()` and
    `net.InterfaceByName` are given as their outcomes, and the interface's
    addresses as the strings `addr.String()` yields ("address/prefix"). */
module Host {
  import opened Wrappers
  import opened StrUtil
  import opened Net

  datatype HostInfo = HostInfo(hostname: string, ip: string, macAddress: string)

  /** The zero value returned with every error. */
  const NoHostInfo := HostInfo("", "", "")

  /** A network interface: `HardwareAddr.String()` and the outcome of `Addrs()`. */
  datatype Interface = Interface(hardwareAddr: string, addrs: Fallible<seq<string>>)

  datatype HostInfoError =
    | HostnameFailed(cause: string)
    | InterfaceFailed(cause: string)
    | AddrsFailed(cause: string)
    | AddrParseFailed(text: string)   // net.ParseCIDR's error, naming the input
    | NoAddressFound                  // ErrNoAddressFound

  /** An address at which the scan stops: one that does not parse, or an IPv4
      one. Any other address is a parsed IPv6 address and the scan goes on. */
  predicate Decisive(addr: string)
  {
    var p := ParseCIDR(addr);
    p.None? || p.value.ip.IsIPv4()
  }

  /** The position of the first decisive address at or after `from`, if any. */
  function FirstDecisiveFrom(addrs: seq<string>, from: nat): (r: Option<nat>)
    requires from <= |addrs|
    ensures r.Some? ==> from <= r.value < |addrs| && Decisive(addrs[r.value])
    ensures r.Some? ==> forall k :: from <= k < r.value ==> !Decisive(addrs[k])
    ensures r.None? ==> forall k :: from <= k < |addrs| ==> !Decisive(addrs[k])
    decreases |addrs| - from
  {
    if from == |addrs| then None
    else if Decisive(addrs[from]) then Some(from)
    else FirstDecisiveFrom(addrs, from + 1)
  }

  function FirstDecisive(addrs: seq<string>): Option<nat>
  {
    FirstDecisiveFrom(addrs, 0)
  }

  /** What the address scan settles on. */
  datatype Selection = Chosen(ip: IP) | Unparsable(text: string) | NoIPv4

  /** The scan's result: the first IPv4 address in list order, unless an
      address before it fails to parse; no IPv4 address at all otherwise. */
  function SelectAddress(addrs: seq<string>): (r: Selection)
    ensures r.NoIPv4? <==> forall k :: 0 <= k < |addrs| ==> ParseCIDR(addrs[k]).Some? && !ParseCIDR(addrs[k]).value.ip.IsIPv4()
    ensures r.Chosen? ==> r.ip.V4?
    ensures r.Chosen? ==>
              exists j :: (0 <= j < |addrs| && ParseCIDR(addrs[j]).Some? && ParseCIDR(addrs[j]).value.ip == r.ip
                           && forall k :: 0 <= k < j ==> !Decisive(addrs[k]))
    ensures r.Unparsable? ==>
              exists j :: (0 <= j < |addrs| && addrs[j] == r.text && ParseCIDR(r.text).None?
                           && forall k :: 0 <= k < j ==> !Decisive(addrs[k]))
  {
    match FirstDecisive(addrs)
    case None => NoIPv4
    case Some(j) =>
      match ParseCIDR(addrs[j])
      case None => Unparsable(addrs[j])
      case Some(c) => Chosen(c.ip)
  }

  /** `LookupHostInfo`. */
  method LookupHostInfo(hostname: Fallible<string>, iface: Fallible<Interface>)
    returns (info: HostInfo, err: Option<HostInfoError>)
    ensures err.Some? ==> info == NoHostInfo
    ensures hostname.Fail? ==> err == Some(HostnameFailed(hostname.cause))
    ensures hostname.Ok? && iface.Fail? ==> err == Some(InterfaceFailed(iface.cause))
    ensures hostname.Ok? && iface.Ok? && iface.value.addrs.Fail? ==>
              err == Some(AddrsFailed(iface.value.addrs.cause))
    ensures hostname.Ok? && iface.Ok? && iface.value.addrs.Ok? ==>
              match SelectAddress(iface.value.addrs.value)
              case NoIPv4 => err == Some(NoAddressFound)
              case Unparsable(text) => err == Some(AddrParseFailed(text))
              case Chosen(ip) => err.None? && info == HostInfo(hostname.value, FormatIPv4(ip), iface.value.hardwareAddr)
    ensures err.None? ==> hostname.Ok? && iface.Ok? && info.hostname == hostname.value
                          && info.macAddress == iface.value.hardwareAddr && info.ip != ""
  {
    var ret := NoHostInfo;
    if hostname.Fail? {
      return ret, Some(HostnameFailed(hostname.cause));
    }
    if iface.Fail? {
      return ret, Some(InterfaceFailed(iface.cause));
    }
    if iface.value.addrs.Fail? {
      return ret, Some(AddrsFailed(iface.value.addrs.cause));
    }
    var addrs := iface.value.addrs.value;
    if |addrs| == 0 {
      return ret, Some(NoAddressFound);
    }
    var ipv4 := "";
    var i := 0;
    while i < |addrs|
      invariant 0 <= i <= |addrs|
      invariant ipv4 == ""
      invariant forall k :: 0 <= k < i ==> !Decisive(addrs[k])
    {
      var parsed := ParseCIDR(addrs[i]);
      if parsed.None? {
        FirstDecisiveIs(addrs, i);
        return ret, Some(AddrParseFailed(addrs[i]));
      }
      if parsed.value.ip.IsIPv4() {
        FirstDecisiveIs(addrs, i);
        ipv4 := FormatIPv4(parsed.value.ip);
        break;
      }
      i := i + 1;
    }
    if ipv4 == "" {
      return ret, Some(NoAddressFound);
    }
    return HostInfo(hostname.value, ipv4, iface.value.hardwareAddr), None;
  }

  lemma {:induction false} FirstDecisiveIs(addrs: seq<string>, j: nat)
    requires j < |addrs| && Decisive(addrs[j])
    requires forall k :: 0 <= k < j ==> !Decisive(addrs[k])
    ensures FirstDecisive(addrs) == Some(j)
  {
    var r := FirstDecisive(addrs);
    assert r.Some?;
    assert !(r.value < j);
  }

  /** An empty list, or one with only IPv6 addresses, has no address to offer. */
  lemma NoIPv4WithoutCandidates(addrs: seq<string>)
    requires forall k :: 0 <= k < |addrs| ==> ParseCIDR(addrs[k]).Some? && ParseCIDR(addrs[k]).value.ip.V6?
    ensures SelectAddress(addrs) == NoIPv4
  {
  }

  /** Once an IPv4 address has been reached, the addresses after it are never
      looked at; a bad one among them is not reported. */
  lemma {:induction false} SuffixIgnored(a: seq<string>, b: seq<string>)
    requires FirstDecisive(a).Some?
    ensures SelectAddress(a + b) == SelectAddress(a)
  {
    var j := FirstDecisive(a).value;
    assert (a + b)[j] == a[j];
    assert forall k :: 0 <= k < j ==> (a + b)[k] == a[k];
    FirstDecisiveIs(a + b, j);
  }

  /** The address reported is dotted decimal and reads back as the address
      chosen. */
  lemma ChosenRoundTrips(addrs: seq<string>)
    requires SelectAddress(addrs).Chosen?
    ensures var ip := SelectAddress(addrs).ip;
            ParseIPv4(FormatIPv4(ip)) == Some(ip)
  {
    var ip := SelectAddress(addrs).ip;
    var j :| 0 <= j < |addrs| && ParseCIDR(addrs[j]).Some? && ParseCIDR(addrs[j]).value.ip == ip;
    var s := addrs[j];
    assert ParseIP(s[..IndexOf(s, '/')]) == Some(ip);
    ParseFormatIPv4(ip);
  }
}
