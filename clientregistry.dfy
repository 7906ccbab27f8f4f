/** The client-side variant of the registry read (discoverclient/local.go). It
    differs from local.go in two ways: a missing file is reported with the
    service's name, and only the text before the first `:` is checked as an
    address, so an entry may carry a `:port` suffix, which is returned with it. */
module ClientRegistry {
  import opened Wrappers
  import opened StrUtil
  import opened Net
  import Registry

  datatype LookupError =
    | NotPresentFor(service: string)   // "discovery file not present for <service>"
    | ReadFailed(cause: string)
    | InvalidServiceIP(text: string)

  datatype Lookup = Lookup(ip: string, err: Option<LookupError>)

  /** The part of an entry that is checked: the text before the first `:`. */
  function HostPart(entry: string): (h: string)
    ensures h <= entry && ':' !in h
    ensures ':' in entry ==> entry[|h|] == ':'
    ensures ':' !in entry ==> h == entry
    ensures ':' in entry ==> h == entry[..IndexOf(entry, ':')]
  {
    SplitHead(entry, ':');
    Split(entry, ':')[0]
  }

  /** discoverclient/local.go `LookupLocalServiceIP`: the whole trimmed content
      of the service's file when `ParseCIDR(host + "/32")` accepts the text
      before its first `:`. */
  function LookupLocalServiceIP(service: string, file: Registry.FileRead): (r: Lookup)
    ensures r.err.Some? ==> r.ip == ""
    ensures file.Missing? ==> r.err == Some(NotPresentFor(service))
    ensures file.ReadErr? ==> r.err == Some(ReadFailed(file.cause))
    ensures r.err.None? <==> file.Content? && ParseCIDR(HostPart(TrimSpace(file.data)) + "/32").Some?
    ensures r.err.None? ==> r.ip == TrimSpace(file.data)
    ensures file.Content? && r.err.Some? ==> r.err == Some(InvalidServiceIP(TrimSpace(file.data)))
  {
    match file
    case Missing => Lookup("", Some(NotPresentFor(service)))
    case ReadErr(cause) => Lookup("", Some(ReadFailed(cause)))
    case Content(data) =>
      var ipStr := TrimSpace(data);
      if ParseCIDR(Split(ipStr, ':')[0] + "/32").None? then Lookup("", Some(InvalidServiceIP(ipStr)))
      else Lookup(ipStr, None)
  }

  /** The entries accepted are exactly those whose text before the first `:`
      is an IPv4 literal; IPv6 cannot pass, since that text has no colon. */
  lemma AcceptedEntries(service: string, data: string)
    ensures LookupLocalServiceIP(service, Registry.Content(data)).err.None?
            <==> IsDottedQuad(HostPart(TrimSpace(data)))
  {
    var h := HostPart(TrimSpace(data));
    ParseCIDRSlash32(h);
    if IsDottedQuad(h) {
      DottedQuadShape(h);
    }
  }

  /** An IPv4 literal followed by `:` and anything is accepted and returned
      whole, suffix included: `10.0.0.5:9090` yields `10.0.0.5:9090`. */
  lemma KeepsPortSuffix(service: string, host: string, port: string)
    requires IsDottedQuad(host)
    ensures LookupLocalServiceIP(service, Registry.Content(host + ":" + port))
            == Lookup(TrimSpace(host + ":" + port), None)
  {
    DottedQuadShape(host);
    var t := TrimSpace(host + ":" + port);
    assert host + ":" + port == (host + ":") + port;
    TrimKeepsPrefix(host + ":", port);
    assert t == host + [':'] + t[|host| + 1..];
    SplitPoint(host, t[|host| + 1..], ':');
    assert HostPart(t) == host;
    AcceptedEntries(service, host + ":" + port);
  }

  /** An entry that does not start with a digit is refused: `not-an-ip`, and
      `::1`, whose text before the first `:` is empty. */
  lemma RejectsUnlessDigitFirst(service: string, data: string)
    requires var t := TrimSpace(data); t == [] || !IsDigit(t[0])
    ensures LookupLocalServiceIP(service, Registry.Content(data))
            == Lookup("", Some(InvalidServiceIP(TrimSpace(data))))
  {
    var h := HostPart(TrimSpace(data));
    if IsDottedQuad(h) {
      DottedQuadShape(h);
    }
    AcceptedEntries(service, data);
  }

  /** White space around the entry never changes the outcome. */
  lemma PaddingIgnored(service: string, w1: string, data: string, w2: string)
    requires AllSpace(w1) && AllSpace(w2)
    ensures LookupLocalServiceIP(service, Registry.Content(w1 + data + w2))
            == LookupLocalServiceIP(service, Registry.Content(data))
  {
    TrimSpaceIgnoresPadding(w1, data, w2);
  }

  /** On a plain IPv4 entry the two variants agree; the client variant accepts
      every entry local.go accepts that has no colon. */
  lemma AgreesWithWatcherSide(service: string, file: Registry.FileRead)
    ensures var local := Registry.LookupLocalServiceIP(file);
            var client := LookupLocalServiceIP(service, file);
            local.err.None? && ':' !in local.ip ==> client == Lookup(local.ip, None)
    ensures file.Content? && IsDottedQuad(TrimSpace(file.data)) ==>
            Registry.LookupLocalServiceIP(file).ip == LookupLocalServiceIP(service, file).ip
            == TrimSpace(file.data)
  {
    if file.Content? {
      var t := TrimSpace(file.data);
      Registry.AcceptedEntries(file.data);
      SplitHead(t, ':');
      AcceptedEntries(service, file.data);
      if IsDottedQuad(t) {
        DottedQuadShape(t);
        Registry.AcceptsIPv4(file.data);
      }
    }
  }
}
