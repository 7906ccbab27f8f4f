# localdiscovery in Dafny

A model of the core of `localdiscovery`, a small service discovery system for Docker
hosts. It has four pieces of sequential logic, each with its Docker, file-system, OS and
channel calls replaced by given inputs:

- **Port resolution** (`PortLookup`, for `LookupPort` in docker.go and in discover.go,
  which are the same code). Given a container identity (hostname, IP, MAC) and a port
  (`80`, `80/tcp`, `8125/udp`), the model proceeds as follows:
  - it normalises the port;
  - it inspects the container whose ID is the hostname;
  - failing that, it scans the running containers for the first whose identity matches;
  - it answers with the host port of that container's first binding.

  An unpublished port is `-1` with no error. Every error carries `-1`.
- **Registry lookup** (`Registry`, for local.go `LookupLocalServiceIP`). A service's file
  in the registry directory holds its address. The trimmed content is accepted when
  `net.ParseCIDR(content + "/32")` accepts it.
- **Client registry lookup** (`ClientRegistry`, for discoverclient/local.go). This
  variant only validates the text before the first `:`. It hands back the whole trimmed
  content, port suffix included.
- **Registry watcher** (`Watcher`, for local.go `WatchService`). The loop looks up the
  service's address and calls the pre-hook with it. It then waits for a tick, an event on
  the service's file or a watcher error. Each time, it calls the post-hook with the same
  address and looks up again. It stops on the stop channel or when a watcher channel
  closes.
  - The events are a sequence.
  - The file system seen by the k-th lookup is `history(k)`.
  - The hook calls are a trace.
- **Host information** (`Host`, for hostinfo.go `LookupHostInfo`). It gives the host
  name, the first IPv4 address of an interface and the interface's hardware address.

Supporting modules model the parts of Go's standard library the core relies on:

- `StrUtil`: `strings.Index`, `strings.Split`, `strings.TrimSpace` with Go's exact
  Unicode white-space set, `strconv.Atoi` on a 64-bit platform, and `strconv.Itoa`.
- `Net`: `net.ParseCIDR`, and the dotted-decimal `IP.String()` of an IPv4 address.
- `Wrappers`: `Option` and `Fallible`.

Where the doc comments and the code disagree, the model follows the code:

- The not-exposed answer is `-1`, as docker.go:47 and discover.go:41 return. The
  `LookupHandler` doc comment (handler.go:25) says 0.
- local.go validates the whole trimmed entry, so an entry with a port suffix
  (`10.0.0.5:9090`) is refused there (`Registry.RejectsPortSuffix`). The client variant
  accepts it (`ClientRegistry.KeepsPortSuffix`).
- local.go's check admits IPv6 literals (`::1/32` is a valid CIDR), although its doc
  comment speaks of an IPv4 (`Registry.AdmitsIPv6`).

## Model

| member | source | states |
|---|---|---|
| StrUtil.IndexOf | docker.go:38 | `strings.Index` for one character: -1 exactly when the character is absent, otherwise the position of its first occurrence |
| StrUtil.Split | docker.go:49 | `strings.Split` on one character: at least one piece, and no piece contains the separator |
| StrUtil.JoinSplit | docker.go:49 | joining the pieces of a split with the separator gives the string back |
| StrUtil.SplitJoin | hostinfo.go:49 | splitting a join of separator-free pieces gives the pieces back |
| StrUtil.SplitHead | discoverclient/local.go:27 | `Split(s, c)[0]` is the prefix of `s` up to the first `c`, or all of `s` when there is none |
| StrUtil.TrimSpace | local.go:85 | `strings.TrimSpace`: the result is the part of the input between its leading and trailing white space, and neither of its ends is white space |
| StrUtil.TrimLeft | local.go:85 | removes exactly the leading white space |
| StrUtil.TrimRight | local.go:85 | removes exactly the trailing white space |
| StrUtil.TrimSpaceIgnoresPadding | discoverclient/local.go:25 | white space added around a string does not change its trimmed form |
| StrUtil.TrimSpaceIdempotent | local.go:85 | trimming twice is trimming once |
| StrUtil.TrimKeepsPrefix | local.go:85 | trimming keeps a prefix that neither starts nor ends with white space |
| StrUtil.Itoa | hostinfo.go:49 | the decimal text of a natural number: digits only, no leading zero, reading back as the number |
| StrUtil.Atoi | docker.go:49 | `strconv.Atoi`: succeeds exactly on an optional sign followed by digits whose value fits in 64 bits, with that value |
| StrUtil.AtoiItoa | docker.go:49 | `Atoi` reads back what `Itoa` writes |
| Net.ParseIPv4 | hostinfo.go:44 | accepts exactly the dotted quads, whose four fields are at most 255, made of digits and dots only |
| Net.DottedQuadShape | discoverclient/local.go:27 | a dotted quad starts with a digit, contains a dot and has no colon, slash or white space |
| Net.ParseIP | local.go:87 | the address part of a CIDR is an IPv4 or an IPv6 literal, and it is IPv4 exactly when it is a dotted quad |
| Net.ParseCIDR | hostinfo.go:44 | `net.ParseCIDR` succeeds exactly when the input has a `/`, the part before the first one is an address, and the part after it is a non-empty run of digits whose value is at most the address's bit count; the result is that address with that prefix length |
| Net.ParseCIDRIPv4 | hostinfo.go:44 | an interface address written as a dotted quad, `/` and a prefix length of at most 32 parses to that IPv4 address and prefix length |
| Net.ParseCIDRSlash32 | local.go:87 | `ParseCIDR(s + "/32")` succeeds exactly when `s` has no `/` and is an address |
| Net.FormatIPv4 | hostinfo.go:49 | `IP.String()` for an IPv4 address is never empty |
| Net.ParseFormatIPv4 | hostinfo.go:49 | parsing the dotted-decimal form of an IPv4 address gives the address back |
| Registry.ServicePath | local.go:78 | the service's file is the directory, a `/` right after it, then the service name |
| Registry.LookupLocalServiceIP | local.go:77-91 | a missing file gives "discovery file not present" and other read errors pass through; otherwise the trimmed content is returned exactly when `ParseCIDR(trimmed + "/32")` succeeds, and an invalid-IP error naming it is returned otherwise; every error comes with "" |
| Registry.AcceptedEntries | local.go:85-90 | an entry is accepted exactly when its trimmed content is an IPv4 or IPv6 literal with no `/` |
| Registry.AcceptsIPv4 | local.go:85-90 | every dotted quad, however padded, is accepted and returned trimmed |
| Registry.RejectsPortSuffix | local.go:87-89 | a dotted quad followed by `:` and anything is refused, so `10.0.0.5:9090` is refused |
| Registry.AdmitsIPv6 | local.go:87 | IPv6-shaped entries such as `::1` are accepted too |
| Registry.AcceptedIsAddress | local.go:85-90 | what is returned on success is a non-empty address literal with no `/` and no white space at either end |
| Registry.PaddingIgnored | local.go:85 | white space around the entry never changes the outcome |
| ClientRegistry.HostPart | discoverclient/local.go:27 | `strings.Split(s, ":")[0]` is the whole entry when it has no `:`, and otherwise the prefix before its first `:`, which is followed by that `:` |
| ClientRegistry.LookupLocalServiceIP | discoverclient/local.go:17-31 | a missing file gives an error naming the service and other read errors pass through; otherwise the whole trimmed content is returned exactly when its part before the first `:` passes `ParseCIDR(part + "/32")`, and an invalid-IP error naming the trimmed content is returned when it does not; every error comes with "" |
| ClientRegistry.AcceptedEntries | discoverclient/local.go:25-30 | an entry is accepted exactly when the part of its trimmed content before the first `:` is a dotted quad |
| ClientRegistry.KeepsPortSuffix | discoverclient/local.go:27-30 | `host:port` is accepted for every dotted quad `host` and returned whole, suffix unchecked |
| ClientRegistry.RejectsUnlessDigitFirst | discoverclient/local.go:27-29 | an entry whose trimmed content is empty or does not start with a digit is refused, so `not-an-ip` and `::1` are refused |
| ClientRegistry.PaddingIgnored | discoverclient/local.go:25 | white space around the entry never changes the outcome |
| ClientRegistry.AgreesWithWatcherSide | discoverclient/local.go:17-31 | every entry the watcher side accepts whose address has no `:` is accepted by the client with the same address; on a dotted quad both return the trimmed content |
| PortLookup.NormalizePort | docker.go:37-40 | the key always has a `/`: the port itself when it has one, otherwise the port followed by `/tcp` |
| PortLookup.NormalizeIdempotent | discover.go:31-34 | normalising twice is normalising once |
| PortLookup.BareMeansTcp | docker.go:37-40 | `80` and `80/tcp` give the same key |
| PortLookup.ProtocolKept | discover.go:31-34 | an explicit protocol is kept, so `8125/udp` never becomes the key of a TCP port |
| PortLookup.HostPortText | docker.go:49 | the host-port text is the whole host port when it has no `/`, and otherwise the prefix before its first `/`; either way it contains no `/` |
| PortLookup.ReturnPort | docker.go:43-55 | an unpublished key gives -1 with no error; otherwise the decimal value of the first binding's host port text, or -1 and an invalid-format error when `Atoi` refuses it |
| PortLookup.DigitPortNonNegative | docker.go:49-54 | a host port written in digits never reads back as a negative port, so a result without error is never the -1 sentinel |
| PortLookup.PublishedPortResolves | discover.go:43-48 | a binding whose host port is written in decimal resolves to that number, with no error |
| PortLookup.FirstMatch | docker.go:73-83 | the first position in listing order whose inspected container has the query's hostname, IP and MAC, or none when none does |
| PortLookup.LookupPort | docker.go:36-88 | the method's answer is the resolution over the whole inventory: fast path, then listing, then the first match, with `continue` past failed inspections |
| PortLookup.ErrorsCarryMinusOne | docker.go:86-87 | every error answer carries -1 |
| PortLookup.FastPathDecides | docker.go:57-66 | a found fast-path container, or an inspect error other than "no such container", decides the answer without the listing, even when the port is not exposed |
| PortLookup.ListFailureReported | docker.go:69-72 | with no container of that ID, a listing error gives -1 and that error |
| PortLookup.UnpublishedIsNotExposed | docker.go:43-48 | a container found but not publishing the port gives -1 with no error, never "not found" |
| PortLookup.NoMatchIsNotFound | discover.go:80-81 | when no container matches, the answer is -1 with a "not found" error naming the normalised port, the hostname and the IP |
| PortLookup.FirstMatchWins | discover.go:67-77 | the answer comes from the first matching container in listing order, whatever follows it |
| PortLookup.FailedInspectSkipped | docker.go:75-79 | inserting a container whose inspection failed into the listing only moves the first match past it |
| PortLookup.FailedInspectIgnored | discover.go:67-77 | the answer is the same with or without a container whose inspection failed |
| PortLookup.TcpDefault | discover.go:31-34 | a lookup of `80` and a lookup of `80/tcp` give the same answer |
| Watcher.Run | local.go:45-69 | the waiting loop goes round at most once per event and never ends with an argument or watcher failure |
| Watcher.WatchSpec | local.go:23-71 | missing arguments give no hook call at all; a watcher failure gives none either; otherwise the first hook call is the pre-hook with the first lookup's address |
| Watcher.WatchService | local.go:23-71 | the method's trace and exit are those of `WatchSpec`: one loop, with `continue` standing for `goto wait` |
| Watcher.NextRound | local.go:66-69 | the end of a round: the post-hook with the round's address, a new lookup and the pre-hook with its result |
| Watcher.Expected | local.go:38-70 | the reference trace after n rounds starts with the pre-hook of the first address and ends with the pre-hook of the n-th |
| Watcher.TraceIsExpected | local.go:38-70 | whatever the events, the trace is exactly the reference trace for the number of rounds gone through |
| Watcher.PostFollowsPre | local.go:39-68 | each post-hook call directly follows the pre-hook call with the same address; the trace starts and ends with a pre-hook call |
| Watcher.HookCounts | local.go:38-70 | the pre-hook is called once more than the number of rounds; the post-hook once per round, or never when it is nil |
| Watcher.TriggerCompletesRound | local.go:38-69 | a tick, a watcher error or an event on the watched file reaching a waiting loop adds the post-hook with the round's address and the pre-hook with the next lookup's, and the loop waits again one round on |
| Watcher.RunAppend | local.go:38-70 | feeding events in two batches is feeding them at once: nothing after an exit, otherwise the run continues from the round reached |
| Watcher.AfterExitIgnored | local.go:49-61 | events after the loop has returned change nothing |
| Watcher.EndingEventStops | local.go:49-61 | a stop, or a closed events or errors channel, ends the loop with no further hook call and the matching exit |
| Watcher.UnrelatedEventIgnored | local.go:55-57 | an event on another file changes nothing: no lookup and no hook call |
| Watcher.PreHookRightAway | local.go:38-43 | the pre-hook is called first with what the first lookup returned, and with "" when that lookup failed |
| Watcher.StopAtOnce | local.go:49-50 | a stop before anything else leaves exactly one pre-hook call |
| Host.FirstDecisiveFrom | hostinfo.go:43-52 | the first address at which the scan stops: one that does not parse, or an IPv4 one |
| Host.SelectAddress | hostinfo.go:42-55 | the chosen address is the first IPv4 one and everything before it parsed; an unparsable address is reported only when everything before it parsed as IPv6; there is no address exactly when every address parses as IPv6 |
| Host.LookupHostInfo | hostinfo.go:22-61 | hostname, interface and address-list failures pass through and an empty list gives `ErrNoAddressFound`; otherwise the scan decides; every error comes with the zero `HostInfo`; on success the hostname and hardware address are unchanged and the IP is non-empty |
| Host.NoIPv4WithoutCandidates | hostinfo.go:53-55 | a list of IPv6 addresses only, or an empty one, gives no address |
| Host.SuffixIgnored | hostinfo.go:48-51 | addresses after the first decisive one are never looked at |
| Host.ChosenRoundTrips | hostinfo.go:49 | the reported address is the dotted-decimal form of the chosen address and parses back to it |

## Left out

- The HTTP side is not modelled, because it is network I/O and JSON: `SelfDockerLookup`
  (docker.go:90 onwards), `LocalLookup` (local.go:93-128), `discoverclient.SelfDockerLookup`
  and `LookupHandler` (handler.go).
- The Docker client is a foreign library: `NewDockerDiscovery`, `NewDiscovery` and the
  Docker API calls. `InspectContainer` and `ListContainers` are given as their outcomes.
- `cmd/discover/main.go` (environment defaults, logging setup, server start) and
  `t_test.go` (logging benchmarks) are not part of this model.
- Logging has no effect on any result and is left out.
- fsnotify, the ticker, the goroutine and the `select`'s choice among ready channels are
  left out. The events are given in the order the `select` receives them. The one-minute
  period is just a `Tick`.
- `Watcher.WatchService`: `log.Fatal` on a `NewWatcher` failure ends the process; the
  model records it as the exit `WatcherFailed` with an empty trace. The ignored
  `watcher.Add` error (local.go:34) is left out.
- `Watcher.WatchService`: the event sequence is finite. When it runs out, the exit is
  `Waiting`, meaning the loop is still blocked in its `select`.
- `Registry.ServicePath`: `path.Join` is modelled as directory, `/`, name. The path
  cleaning `path.Join` does (duplicate or trailing slashes, `..`) is left out.
- `Net.ParseIP`: IPv6 literals are recognised by shape only (hex digits, colons and dots,
  at least one colon, a colon before any dot). This is a superset of what Go accepts.
- `Net.ParseIP`: an IPv4-mapped IPv6 literal (`::ffff:1.2.3.4`) counts as IPv6, and Go's
  `To4` would treat it as IPv4.
- `Net.ParseIPv4`: leading zeros in a field are accepted, as in Go releases before 1.17.
- `StrUtil.Atoi`: assumes a 64-bit `int`.
- `StrUtil.Atoi`: the error detail (syntax or range) is not distinguished.
- `Host.LookupHostInfo` and `PortLookup.LookupPort`: error values are reduced to a
  constructor and the text they carry. The messages' formatting is left out.
- `PortLookup.LookupPort`: `ports[0]` on an empty binding list would panic (docker.go:49,
  discover.go:43). The model requires a first binding, and only for the container whose
  ports are actually read (`BindingsPresent`).
