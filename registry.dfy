/** The local service registry as the watcher reads it (local.go): a directory
    holding one file per service whose trimmed content is the service's
    address. The file system is not modelled; a read of the file
    `<discoveryPath>/<service>` is given as a `FileRead`. */
module Registry {
  import opened Wrappers
  import opened StrUtil
  import opened Net

  /** The outcome of reading a registry file. */
  datatype FileRead = Missing | ReadErr(cause: string) | Content(data: string)

  datatype LookupError =
    | NotPresent                  // "discovery file not present"
    | ReadFailed(cause: string)   // any other read error, passed through
    | InvalidServiceIP(text: string)

  /** Go's `(string, error)` result: the address, or "" and an error. */
  datatype Lookup = Lookup(ip: string, err: Option<LookupError>)

  /** `path.Join(discoveryPath, service)` for a directory without a trailing
      slash and a plain file name. */
  function ServicePath(discoveryPath: string, service: string): (p: string)
    ensures |p| == |discoveryPath| + 1 + |service|
    ensures p[..|discoveryPath|] == discoveryPath && p[|discoveryPath| + 1..] == service
    ensures p[|discoveryPath|] == '/'
  {
    discoveryPath + "/" + service
  }

  /** local.go `LookupLocalServiceIP`: the trimmed content of the service's file
      when `ParseCIDR(content + "/32")` accepts it. */
  function LookupLocalServiceIP(file: FileRead): (r: Lookup)
    ensures r.err.Some? ==> r.ip == ""
    ensures file.Missing? ==> r.err == Some(NotPresent)
    ensures file.ReadErr? ==> r.err == Some(ReadFailed(file.cause))
    ensures r.err.None? <==> file.Content? && ParseCIDR(TrimSpace(file.data) + "/32").Some?
    ensures r.err.None? ==> r.ip == TrimSpace(file.data)
    ensures file.Content? && r.err.Some? ==> r.err == Some(InvalidServiceIP(TrimSpace(file.data)))
  {
    match file
    case Missing => Lookup("", Some(NotPresent))
    case ReadErr(cause) => Lookup("", Some(ReadFailed(cause)))
    case Content(data) =>
      var ipStr := TrimSpace(data);
      if ParseCIDR(ipStr + "/32").None? then Lookup("", Some(InvalidServiceIP(ipStr)))
      else Lookup(ipStr, None)
  }

  /** The entries accepted are exactly the trimmed contents that are an IPv4
      or IPv6 literal with no `/`; what is returned is that literal. */
  lemma AcceptedEntries(data: string)
    ensures LookupLocalServiceIP(Content(data)).err.None?
            <==> '/' !in TrimSpace(data) && ParseIP(TrimSpace(data)).Some?
  {
    ParseCIDRSlash32(TrimSpace(data));
  }

  /** Every IPv4 literal, however padded, is accepted and returned trimmed. */
  lemma AcceptsIPv4(data: string)
    requires IsDottedQuad(TrimSpace(data))
    ensures LookupLocalServiceIP(Content(data)) == Lookup(TrimSpace(data), None)
  {
    var t := TrimSpace(data);
    assert ParseIPv4(t).Some?;
    assert '/' !in t by {
      assert forall k :: 0 <= k < |t| ==> IsDigit(t[k]) || t[k] == '.';
    }
    ParseCIDRSlash32(t);
  }

  /** An address followed by a port is not an address: `10.0.0.5:9090` is
      refused, and so is every IPv4 literal followed by `:` and anything. */
  lemma RejectsPortSuffix(host: string, port: string)
    requires IsDottedQuad(host)
    ensures LookupLocalServiceIP(Content(host + ":" + port)).err.Some?
  {
    DottedQuadShape(host);
    var t := TrimSpace(host + ":" + port);
    assert host + ":" + port == (host + ":") + port;
    TrimKeepsPrefix(host + ":", port);
    assert t[|host|] == ':';
    assert !IsDottedQuad(t) by {
      if IsDottedQuad(t) {
        DottedQuadShape(t);
      }
    }
    assert !IPv6Shaped(t) by {
      var i := IndexOf(host, '.');
      assert t[i] == '.' && t[..|host|] == host;
      assert IndexOf(t, '.') <= i;
      assert IndexOf(t, ':') == |host|;
    }
    AcceptedEntries(host + ":" + port);
  }

  /** Every IPv6-shaped entry is admitted too (`::1`, `fe80::1`): the whole
      trimmed content is checked as an address of either family. */
  lemma AdmitsIPv6(data: string)
    requires IPv6Shaped(TrimSpace(data))
    ensures LookupLocalServiceIP(Content(data)) == Lookup(TrimSpace(data), None)
  {
    var t := TrimSpace(data);
    assert '/' !in t by {
      assert forall k :: 0 <= k < |t| ==> t[k] != '/';
    }
    AcceptedEntries(data);
  }

  /** What is handed on is never padded and is always an address literal. */
  lemma AcceptedIsAddress(file: FileRead)
    ensures var r := LookupLocalServiceIP(file);
            r.err.None? ==> ParseIP(r.ip).Some? && '/' !in r.ip
                            && r.ip != [] && !IsSpace(r.ip[0]) && !IsSpace(r.ip[|r.ip| - 1])
  {
    if file.Content? {
      AcceptedEntries(file.data);
      var t := TrimSpace(file.data);
      if IsDottedQuad(t) {
        DottedQuadShape(t);
      }
    }
  }

  /** White space around the address never changes the outcome. */
  lemma PaddingIgnored(w1: string, data: string, w2: string)
    requires AllSpace(w1) && AllSpace(w2)
    ensures LookupLocalServiceIP(Content(w1 + data + w2)) == LookupLocalServiceIP(Content(data))
  {
    TrimSpaceIgnoresPadding(w1, data, w2);
  }
}
