/** The port resolution engine: `LookupPort` of docker.go, repeated verbatim as
    `Discovery.LookupPort` in discover.go. Given a container's identity
    (hostname, IP, MAC) and a container-side port, it finds the container in the
    Docker inventory and returns the host port the first binding of that port
    publishes. The Docker API is not modelled: the inventory is given as the
    result of inspecting `hostname` as a container ID and the result of listing
    the running containers and inspecting each. */
module PortLookup {
  import opened Wrappers
  import opened StrUtil

  /** One entry of a container's port bindings (`docker.PortBinding`). */
  datatype PortBinding = PortBinding(hostIP: string, hostPort: string)

  /** The inspected container, reduced to what the lookup reads:
      `Config.Hostname`, `NetworkSettings.IPAddress`, `NetworkSettings.MacAddress`
      and `NetworkSettings.Ports`, keyed by "port/protocol". */
  datatype Container = Container(hostname: string, ip: string, mac: string,
                                 ports: map<string, seq<PortBinding>>)

  /** The outcome of `InspectContainer`. */
  datatype Inspect = Found(container: Container) | NoSuch | OtherErr(cause: string)

  /** The outcome of `ListContainers`, each listed container already inspected
      by its ID, in listing order. */
  datatype Listing = Listed(items: seq<Inspect>) | ListErr(cause: string)

  datatype PortError =
    | InspectFailed(cause: string)        // fast-path inspect error other than NoSuchContainer
    | ListFailed(cause: string)           // ListContainers error
    | InvalidPortFormat(text: string)     // strconv.Atoi rejected the host port
    | NotFound(port: string, hostname: string, ip: string)

  /** Go's `(int, error)` result. */
  datatype PortResult = PortResult(port: int, err: Option<PortError>)

  /** -1 with no error: the container exists but does not publish the port. */
  const NotExposed := PortResult(-1, None)

  // ---------------------------------------------------------------------------
  // Port normalisation
  // ---------------------------------------------------------------------------

  /** The port key looked up: the port string, with `/tcp` appended when it
      names no protocol. */
  function NormalizePort(port: string): (key: string)
    ensures '/' in key
    ensures '/' in port ==> key == port
    ensures '/' !in port ==> key == port + "/tcp"
  {
    if IndexOf(port, '/') == -1 then port + "/tcp" else port
  }

  /** Normalising twice is normalising once. */
  lemma NormalizeIdempotent(port: string)
    ensures NormalizePort(NormalizePort(port)) == NormalizePort(port)
  {
  }

  /** A bare port number and the same number with `/tcp` give the same key. */
  lemma BareMeansTcp(port: string)
    requires '/' !in port
    ensures NormalizePort(port) == NormalizePort(port + "/tcp")
  {
    assert (port + "/tcp")[|port|] == '/';
  }

  /** An explicit protocol is never rewritten: `8125/udp` never turns into the
      key of a TCP port. */
  lemma ProtocolKept(number: string, proto: string)
    requires '/' !in number
    ensures NormalizePort(number + "/" + proto) == number + "/" + proto
    ensures proto != "tcp" ==> NormalizePort(number + "/" + proto) != NormalizePort(number)
  {
    var s := number + "/" + proto;
    assert s[|number|] == '/';
    if proto != "tcp" {
      assert s[|number| + 1..] == proto;
      assert (number + "/tcp")[|number| + 1..] == "tcp";
    }
  }

  // ---------------------------------------------------------------------------
  // The returnPort helper
  // ---------------------------------------------------------------------------

  /** `ports[key]` has a first binding whenever the key is present: the source
      indexes `ports[0]` without checking, which would panic. */
  predicate BindingPresent(c: Container, key: string)
  {
    key in c.ports ==> |c.ports[key]| > 0
  }

  /** The text of a host port up to its first `/`: `strings.Split(hp, "/")[0]`. */
  function HostPortText(binding: PortBinding): (t: string)
    ensures t <= binding.hostPort && '/' !in t
    ensures '/' !in binding.hostPort ==> t == binding.hostPort
    ensures '/' in binding.hostPort ==> t == binding.hostPort[..IndexOf(binding.hostPort, '/')]
  {
    SplitHead(binding.hostPort, '/');
    Split(binding.hostPort, '/')[0]
  }

  /** `returnPort`: not exposed when the key is absent, otherwise the decimal
      value of the first binding's host port, or -1 and an error when that text
      is not an integer. */
  function ReturnPort(c: Container, key: string): (r: PortResult)
    requires BindingPresent(c, key)
    ensures key !in c.ports ==> r == NotExposed
    ensures key in c.ports ==>
              var text := HostPortText(c.ports[key][0]);
              && (r.err.None? <==> Atoi(text).Some?)
              && (r.err.None? ==> r.port == DecimalValue(text))
              && (r.err.Some? ==> r == PortResult(-1, Some(InvalidPortFormat(text))))
  {
    if key !in c.ports then NotExposed
    else
      var text := HostPortText(c.ports[key][0]);
      match Atoi(text)
      case None => PortResult(-1, Some(InvalidPortFormat(text)))
      case Some(n) => PortResult(n, None)
  }

  /** A container publishing the port on host port `hp` (written the way
      Docker writes it) resolves to `hp`, with no error. */
  lemma PublishedPortResolves(c: Container, key: string, hp: nat)
    requires key in c.ports && |c.ports[key]| > 0
    requires c.ports[key][0].hostPort == Itoa(hp)
    requires hp <= MaxInt64
    ensures ReturnPort(c, key) == PortResult(hp, None)
  {
    var s := Itoa(hp);
    assert '/' !in s by {
      assert forall k :: 0 <= k < |s| ==> IsDigit(s[k]);
    }
    SplitHead(s, '/');
    AtoiItoa(hp);
  }

  /** A host port written in digits never reads back as a negative port, so an
      error-free result is never confused with the `-1` sentinel. */
  lemma DigitPortNonNegative(c: Container, key: string)
    requires key in c.ports && |c.ports[key]| > 0
    requires var t := HostPortText(c.ports[key][0]); |t| > 0 && AllDigits(t)
    ensures ReturnPort(c, key).err.None? ==> ReturnPort(c, key).port >= 0
  {
    AtoiDigitsNonNegative(HostPortText(c.ports[key][0]));
  }

  // ---------------------------------------------------------------------------
  // Matching the inventory
  // ---------------------------------------------------------------------------

  /** An inspected container whose hostname, IP and MAC all equal the query. */
  predicate Matches(item: Inspect, hostname: string, ip: string, mac: string)
  {
    item.Found? && item.container.hostname == hostname
    && item.container.ip == ip && item.container.mac == mac
  }

  /** The position of the first matching container in listing order, if any. */
  function FirstMatch(items: seq<Inspect>, hostname: string, ip: string, mac: string): (r: Option<nat>)
    ensures r.Some? ==> r.value < |items| && Matches(items[r.value], hostname, ip, mac)
    ensures r.Some? ==> forall k :: 0 <= k < r.value ==> !Matches(items[k], hostname, ip, mac)
    ensures r.None? ==> forall k :: 0 <= k < |items| ==> !Matches(items[k], hostname, ip, mac)
    decreases |items|
  {
    if items == [] then None
    else if Matches(items[0], hostname, ip, mac) then Some(0)
    else match FirstMatch(items[1..], hostname, ip, mac)
      case None => None
      case Some(j) => Some(j + 1)
  }

  /** Whatever the lookup will index is safe to index: the fast-path container,
      or the first match of the scan. */
  predicate BindingsPresent(hostname: string, ip: string, mac: string, port: string,
                            fast: Inspect, listing: Listing)
  {
    var key := NormalizePort(port);
    && (fast.Found? ==> BindingPresent(fast.container, key))
    && (fast.NoSuch? && listing.Listed? ==>
          match FirstMatch(listing.items, hostname, ip, mac)
          case None => true
          case Some(j) => BindingPresent(listing.items[j].container, key))
  }

  /** What `LookupPort` returns, stated over the whole inventory. */
  function Resolve(hostname: string, ip: string, mac: string, port: string,
                   fast: Inspect, listing: Listing): PortResult
    requires BindingsPresent(hostname, ip, mac, port, fast, listing)
  {
    var key := NormalizePort(port);
    match fast
    case Found(c) => ReturnPort(c, key)
    case OtherErr(cause) => PortResult(-1, Some(InspectFailed(cause)))
    case NoSuch =>
      match listing
      case ListErr(cause) => PortResult(-1, Some(ListFailed(cause)))
      case Listed(items) =>
        match FirstMatch(items, hostname, ip, mac)
        case Some(j) => ReturnPort(items[j].container, key)
        case None => PortResult(-1, Some(NotFound(key, hostname, ip)))
  }

  /** `LookupPort`: try `hostname` as a container ID; if there is no such
      container, scan the running containers in listing order, skipping those
      that failed to inspect, and answer from the first one whose hostname, IP
      and MAC all match. */
  method LookupPort(hostname: string, ip: string, mac: string, port: string,
                    fast: Inspect, listing: Listing)
    returns (hostPort: int, err: Option<PortError>)
    requires BindingsPresent(hostname, ip, mac, port, fast, listing)
    ensures PortResult(hostPort, err) == Resolve(hostname, ip, mac, port, fast, listing)
  {
    var key := port;
    if IndexOf(key, '/') == -1 {
      key := key + "/tcp";
    }
    match fast {
      case OtherErr(cause) =>
        return -1, Some(InspectFailed(cause));
      case Found(c) =>
        var r := ReturnPort(c, key);
        return r.port, r.err;
      case NoSuch =>
    }
    if listing.ListErr? {
      return -1, Some(ListFailed(listing.cause));
    }
    var items := listing.items;
    var i := 0;
    while i < |items|
      invariant 0 <= i <= |items|
      invariant forall k :: 0 <= k < i ==> !Matches(items[k], hostname, ip, mac)
    {
      var item := items[i];
      if !item.Found? {
        i := i + 1;
        continue;
      }
      var c := item.container;
      if c.hostname == hostname && c.ip == ip && c.mac == mac {
        var r := ReturnPort(c, key);
        return r.port, r.err;
      }
      i := i + 1;
    }
    return -1, Some(NotFound(key, hostname, ip));
  }

  // ---------------------------------------------------------------------------
  // Properties of the resolution
  // ---------------------------------------------------------------------------

  /** Every error comes with -1. */
  lemma ErrorsCarryMinusOne(hostname: string, ip: string, mac: string, port: string,
                            fast: Inspect, listing: Listing)
    requires BindingsPresent(hostname, ip, mac, port, fast, listing)
    ensures var r := Resolve(hostname, ip, mac, port, fast, listing);
            r.err.Some? ==> r.port == -1
  {
  }

  /** A found fast-path container, or a fast-path error other than "no such
      container", decides the answer: the listing is never consulted. */
  lemma FastPathDecides(hostname: string, ip: string, mac: string, port: string,
                        fast: Inspect, l1: Listing, l2: Listing)
    requires !fast.NoSuch?
    requires BindingsPresent(hostname, ip, mac, port, fast, l1)
    ensures BindingsPresent(hostname, ip, mac, port, fast, l2)
    ensures Resolve(hostname, ip, mac, port, fast, l1) == Resolve(hostname, ip, mac, port, fast, l2)
    ensures fast.Found? ==> Resolve(hostname, ip, mac, port, fast, l1)
                            == ReturnPort(fast.container, NormalizePort(port))
    ensures fast.OtherErr? ==> Resolve(hostname, ip, mac, port, fast, l1)
                               == PortResult(-1, Some(InspectFailed(fast.cause)))
  {
  }

  /** With no container of that ID, a failure to list the containers is
      reported, with -1. */
  lemma ListFailureReported(hostname: string, ip: string, mac: string, port: string, cause: string)
    ensures BindingsPresent(hostname, ip, mac, port, NoSuch, ListErr(cause))
    ensures Resolve(hostname, ip, mac, port, NoSuch, ListErr(cause)) == PortResult(-1, Some(ListFailed(cause)))
  {
  }

  /** A container that is found but does not publish the port is "not
      exposed" (-1, no error), never "not found", whichever way it was found. */
  lemma UnpublishedIsNotExposed(hostname: string, ip: string, mac: string, port: string,
                                fast: Inspect, listing: Listing)
    requires BindingsPresent(hostname, ip, mac, port, fast, listing)
    requires fast.Found? ==> NormalizePort(port) !in fast.container.ports
    requires fast.NoSuch? && listing.Listed? ==>
               forall k :: 0 <= k < |listing.items| && Matches(listing.items[k], hostname, ip, mac)
                           ==> NormalizePort(port) !in listing.items[k].container.ports
    requires fast.Found? || (fast.NoSuch? && listing.Listed? &&
               exists k :: 0 <= k < |listing.items| && Matches(listing.items[k], hostname, ip, mac))
    ensures Resolve(hostname, ip, mac, port, fast, listing) == NotExposed
  {
  }

  /** When no container matches, the answer is -1 and a "not found" error. */
  lemma NoMatchIsNotFound(hostname: string, ip: string, mac: string, port: string,
                          items: seq<Inspect>)
    requires forall k :: 0 <= k < |items| ==> !Matches(items[k], hostname, ip, mac)
    ensures BindingsPresent(hostname, ip, mac, port, NoSuch, Listed(items))
    ensures Resolve(hostname, ip, mac, port, NoSuch, Listed(items))
            == PortResult(-1, Some(NotFound(NormalizePort(port), hostname, ip)))
  {
  }

  /** The first match in listing order wins, whatever comes after it. */
  lemma FirstMatchWins(hostname: string, ip: string, mac: string, port: string,
                       items: seq<Inspect>, j: nat)
    requires j < |items| && Matches(items[j], hostname, ip, mac)
    requires forall k :: 0 <= k < j ==> !Matches(items[k], hostname, ip, mac)
    requires BindingPresent(items[j].container, NormalizePort(port))
    ensures BindingsPresent(hostname, ip, mac, port, NoSuch, Listed(items))
    ensures Resolve(hostname, ip, mac, port, NoSuch, Listed(items))
            == ReturnPort(items[j].container, NormalizePort(port))
  {
    FirstMatchIs(items, hostname, ip, mac, j);
  }

  lemma {:induction false} FirstMatchIs(items: seq<Inspect>, hostname: string, ip: string, mac: string, j: nat)
    requires j < |items| && Matches(items[j], hostname, ip, mac)
    requires forall k :: 0 <= k < j ==> !Matches(items[k], hostname, ip, mac)
    ensures FirstMatch(items, hostname, ip, mac) == Some(j)
  {
    var r := FirstMatch(items, hostname, ip, mac);
    assert r.Some?;
    assert !(r.value < j);
  }

  /** Where the first match lands once a failed container is inserted after
      the first `n` entries. */
  function Shifted(m: Option<nat>, n: nat): Option<nat>
  {
    match m
    case None => None
    case Some(j) => if j < n then Some(j) else Some(j + 1)
  }

  /** A container whose inspection fails is skipped: inserting it into the
      listing only moves the first match past it. */
  lemma {:induction false} FailedInspectSkipped(hostname: string, ip: string, mac: string,
                                                a: seq<Inspect>, failed: Inspect, b: seq<Inspect>)
    requires !failed.Found?
    ensures FirstMatch(a + [failed] + b, hostname, ip, mac)
            == Shifted(FirstMatch(a + b, hostname, ip, mac), |a|)
    decreases |a|
  {
    if a == [] {
      SkipAtFront(hostname, ip, mac, failed, b);
    } else {
      FailedInspectSkipped(hostname, ip, mac, a[1..], failed, b);
      SkipStep(hostname, ip, mac, a, failed, b);
    }
  }

  lemma SkipAtFront(hostname: string, ip: string, mac: string, failed: Inspect, b: seq<Inspect>)
    requires !failed.Found?
    ensures FirstMatch([] + [failed] + b, hostname, ip, mac)
            == Shifted(FirstMatch([] + b, hostname, ip, mac), 0)
  {
    assert [] + [failed] + b == [failed] + b;
    assert ([failed] + b)[1..] == b;
    assert [] + b == b;
  }

  lemma SkipStep(hostname: string, ip: string, mac: string,
                 a: seq<Inspect>, failed: Inspect, b: seq<Inspect>)
    requires a != []
    requires FirstMatch(a[1..] + [failed] + b, hostname, ip, mac)
             == Shifted(FirstMatch(a[1..] + b, hostname, ip, mac), |a| - 1)
    ensures FirstMatch(a + [failed] + b, hostname, ip, mac)
            == Shifted(FirstMatch(a + b, hostname, ip, mac), |a|)
  {
    var m := [failed] + b;
    assert a + [failed] + b == a + m;
    assert a[1..] + [failed] + b == a[1..] + m;
    TailOfConcat(a, m);
    TailOfConcat(a, b);
    SameHead(hostname, ip, mac, a + m, a + b, |a|);
  }

  lemma TailOfConcat(a: seq<Inspect>, m: seq<Inspect>)
    requires a != []
    ensures (a + m)[1..] == a[1..] + m && (a + m)[0] == a[0]
  {
  }

  /** Two listings with the same first entry whose tails have first matches
      related by `Shifted` have first matches related the same way. */
  lemma SameHead(hostname: string, ip: string, mac: string, x: seq<Inspect>, y: seq<Inspect>, n: nat)
    requires x != [] && y != [] && x[0] == y[0] && n >= 1
    requires FirstMatch(x[1..], hostname, ip, mac) == Shifted(FirstMatch(y[1..], hostname, ip, mac), n - 1)
    ensures FirstMatch(x, hostname, ip, mac) == Shifted(FirstMatch(y, hostname, ip, mac), n)
  {
  }

  /** The scan's answer is the same with or without the failed container. */
  lemma FailedInspectIgnored(hostname: string, ip: string, mac: string, port: string,
                             a: seq<Inspect>, failed: Inspect, b: seq<Inspect>)
    requires !failed.Found?
    requires BindingsPresent(hostname, ip, mac, port, NoSuch, Listed(a + b))
    ensures BindingsPresent(hostname, ip, mac, port, NoSuch, Listed(a + [failed] + b))
    ensures Resolve(hostname, ip, mac, port, NoSuch, Listed(a + [failed] + b))
            == Resolve(hostname, ip, mac, port, NoSuch, Listed(a + b))
  {
    FailedInspectSkipped(hostname, ip, mac, a, failed, b);
    var m := FirstMatch(a + b, hostname, ip, mac);
    if m.Some? {
      var j := m.value;
      if j < |a| {
        assert (a + [failed] + b)[j] == (a + b)[j];
      } else {
        assert (a + [failed] + b)[j + 1] == (a + b)[j];
      }
    }
  }

  /** `80` and `80/tcp` are the same query. */
  lemma TcpDefault(hostname: string, ip: string, mac: string, number: string,
                   fast: Inspect, listing: Listing)
    requires '/' !in number
    requires BindingsPresent(hostname, ip, mac, number, fast, listing)
    ensures BindingsPresent(hostname, ip, mac, number + "/tcp", fast, listing)
    ensures Resolve(hostname, ip, mac, number, fast, listing)
            == Resolve(hostname, ip, mac, number + "/tcp", fast, listing)
  {
    BareMeansTcp(number);
  }
}
