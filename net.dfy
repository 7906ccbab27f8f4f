/** The part of Go's `net` package the core relies on: `ParseIP` (through
    `ParseCIDR`), `ParseCIDR` and the dotted-decimal text of an IPv4 address.
    IPv4 literals are recognised exactly (four decimal fields of value at most
    255, leading zeros allowed); IPv6 literals are recognised by their shape
    only, a superset of what Go accepts (see `IPv6Shaped`). */
module Net {
  import opened Wrappers
  import opened StrUtil

  /** A parsed address. An IPv6 address keeps its literal text. */
  datatype IP = V4(a: nat, b: nat, c: nat, d: nat) | V6(literal: string)
  {
    /** `IP.To4() != nil`. */
    predicate IsIPv4() { V4? }

    /** The number of bits of the address: `8 * len(ip)` in `ParseCIDR`. */
    function Bits(): nat { if V4? then 32 else 128 }
  }

  datatype CIDR = CIDR(ip: IP, prefixLen: nat)

  /** A dotted-quad field: one or more decimal digits whose value is at most 255. */
  predicate IsOctet(f: string)
  {
    |f| > 0 && AllDigits(f) && DigitsValue(f) <= 255
  }

  predicate IsDottedQuad(s: string)
  {
    var f := Split(s, '.');
    |f| == 4 && IsOctet(f[0]) && IsOctet(f[1]) && IsOctet(f[2]) && IsOctet(f[3])
  }

  /** Every character of a join of digit strings is a digit or the separator. */
  lemma {:induction false} JoinOfDigits(parts: seq<string>)
    requires |parts| >= 1
    requires forall i :: 0 <= i < |parts| ==> AllDigits(parts[i])
    ensures forall k :: 0 <= k < |Join(parts, '.')| ==> IsDigit(Join(parts, '.')[k]) || Join(parts, '.')[k] == '.'
    decreases |parts|
  {
    if |parts| > 1 {
      JoinOfDigits(parts[1..]);
    }
  }

  /** Go's `parseIPv4`: the address of a dotted-quad literal. Such a literal is
      made of digits and dots only. */
  function ParseIPv4(s: string): (r: Option<IP>)
    ensures r.Some? <==> IsDottedQuad(s)
    ensures r.Some? ==> r.value.V4? && r.value.a <= 255 && r.value.b <= 255
                        && r.value.c <= 255 && r.value.d <= 255
    ensures r.Some? ==> forall k :: 0 <= k < |s| ==> IsDigit(s[k]) || s[k] == '.'
  {
    var f := Split(s, '.');
    if IsDottedQuad(s) then
      DottedQuadChars(s);
      Some(V4(DigitsValue(f[0]), DigitsValue(f[1]), DigitsValue(f[2]), DigitsValue(f[3])))
    else None
  }

  /** A dotted quad is made of digits and dots only. */
  lemma DottedQuadChars(s: string)
    requires IsDottedQuad(s)
    ensures forall k :: 0 <= k < |s| ==> IsDigit(s[k]) || s[k] == '.'
  {
    var f := Split(s, '.');
    assert forall i :: 0 <= i < |f| ==> AllDigits(f[i]) by {
      assert IsOctet(f[0]) && IsOctet(f[1]) && IsOctet(f[2]) && IsOctet(f[3]);
    }
    JoinOfDigits(f);
    JoinSplit(s, '.');
  }

  /** A dotted-quad literal starts with a digit, has a dot, and holds no colon,
      slash or white space. */
  lemma DottedQuadShape(h: string)
    requires IsDottedQuad(h)
    ensures h != [] && IsDigit(h[0]) && '.' in h
    ensures ':' !in h && '/' !in h && forall k :: 0 <= k < |h| ==> !IsSpace(h[k])
  {
    var f := Split(h, '.');
    SplitHead(h, '.');
    assert f[0] <= h && |f[0]| > 0;
    assert h[0] == f[0][0];
    assert ParseIPv4(h).Some?;
    assert forall k :: 0 <= k < |h| ==> IsDigit(h[k]) || h[k] == '.';
  }

  predicate IsHexDigit(c: char)
  {
    ('0' <= c <= '9') || ('a' <= c <= 'f') || ('A' <= c <= 'F')
  }

  /** A necessary condition for Go's `parseIPv6` to accept `s`: only hex
      digits, colons and dots (an embedded IPv4 tail), at least one colon, and
      a colon before the first dot. */
  predicate IPv6Shaped(s: string)
  {
    && ':' in s
    && (forall k :: 0 <= k < |s| ==> IsHexDigit(s[k]) || s[k] == ':' || s[k] == '.')
    && ('.' in s ==> IndexOf(s, ':') < IndexOf(s, '.'))
  }

  /** The address `ParseCIDR` reads in front of the `/`: an IPv4 literal, else an
      IPv6 literal. */
  function ParseIP(s: string): (r: Option<IP>)
    ensures r.Some? <==> IsDottedQuad(s) || IPv6Shaped(s)
    ensures r.Some? && r.value.V4? <==> IsDottedQuad(s)
    ensures r.Some? && r.value.V4? ==> r == ParseIPv4(s)
  {
    var v4 := ParseIPv4(s);
    if v4.Some? then v4
    else if IPv6Shaped(s) then Some(V6(s))
    else None
  }

  /** Go's `net.ParseCIDR`: split at the first `/`; the front must be an
      address and the rest a decimal prefix length of at most the address's
      bit count. */
  function ParseCIDR(s: string): (r: Option<CIDR>)
    ensures r.Some? <==>
              && '/' in s
              && var addr, mask := s[..IndexOf(s, '/')], s[IndexOf(s, '/') + 1..];
                 && ParseIP(addr).Some?
                 && |mask| > 0 && AllDigits(mask)
                 && DigitsValue(mask) <= ParseIP(addr).value.Bits()
    ensures r.Some? ==> ParseIP(s[..IndexOf(s, '/')]) == Some(r.value.ip)
    ensures r.Some? ==> r.value.prefixLen == DigitsValue(s[IndexOf(s, '/') + 1..])
    ensures r.Some? ==> r.value.prefixLen <= r.value.ip.Bits()
  {
    var i := IndexOf(s, '/');
    if i < 0 then None
    else
      var addr, mask := s[..i], s[i + 1..];
      match ParseIP(addr)
      case None => None
      case Some(ip) =>
        if |mask| > 0 && AllDigits(mask) && DigitsValue(mask) <= ip.Bits()
        then Some(CIDR(ip, DigitsValue(mask)))
        else None
  }

  /** An interface address as the host lists it, a dotted quad followed by `/`
      and a prefix length of at most 32 (`192.168.1.10/24`), parses to that
      IPv4 address and that prefix length. */
  lemma ParseCIDRIPv4(a: string, n: nat)
    requires IsDottedQuad(a) && n <= 32
    ensures ParseCIDR(a + "/" + Itoa(n)) == Some(CIDR(ParseIPv4(a).value, n))
  {
    DottedQuadShape(a);
    var m := Itoa(n);
    assert a + "/" + m == a + ['/'] + m;
    SplitPoint(a, m, '/');
  }

  /** What `ParseCIDR(s + "/32")` decides: `s` has no `/` and is an address of
      either family (the prefix 32 fits both). */
  lemma ParseCIDRSlash32(s: string)
    ensures ParseCIDR(s + "/32").Some? <==> '/' !in s && ParseIP(s).Some?
  {
    if '/' !in s {
      Slash32Mask(s);
    } else {
      Slash32Rejected(s);
    }
  }

  lemma Slash32Mask(s: string)
    requires '/' !in s
    ensures ParseCIDR(s + "/32").Some? <==> ParseIP(s).Some?
  {
    var t := s + "/32";
    assert t == s + ['/'] + "32";
    SplitPoint(s, "32", '/');
    assert DigitsValue("32") == 32 by {
      assert "32"[..1] == "3";
    }
  }

  lemma Slash32Rejected(s: string)
    requires '/' in s
    ensures ParseCIDR(s + "/32").None?
  {
    var t := s + "/32";
    var j := IndexOf(s, '/');
    assert t[j] == '/' && t[..j] == s[..j];
    assert IndexOf(t, '/') == j;
    var mask := t[j + 1..];
    assert mask[|s| - j - 1] == '/';
  }

  /** `ip.String()` for an IPv4 address: the dotted-decimal form. */
  function FormatIPv4(ip: IP): (r: string)
    requires ip.V4?
    ensures |r| > 0
  {
    Join([Itoa(ip.a), Itoa(ip.b), Itoa(ip.c), Itoa(ip.d)], '.')
  }

  /** Parsing the dotted-decimal form of an IPv4 address gives the address back. */
  lemma ParseFormatIPv4(ip: IP)
    requires ip.V4? && ip.a <= 255 && ip.b <= 255 && ip.c <= 255 && ip.d <= 255
    ensures ParseIPv4(FormatIPv4(ip)) == Some(ip)
  {
    var parts := [Itoa(ip.a), Itoa(ip.b), Itoa(ip.c), Itoa(ip.d)];
    forall i | 0 <= i < 4 ensures '.' !in parts[i] {
      assert AllDigits(parts[i]);
      assert forall k :: 0 <= k < |parts[i]| ==> parts[i][k] != '.';
    }
    SplitJoin(parts, '.');
  }
}
