/** Remote policies (internal/config/remote.go): the gates a policy URL passes
 *  before and after it is fetched, the address checks that keep requests off
 *  loopback, private, link-local and unspecified addresses, and the name a
 *  fetched policy is stored under. URL and IP parsing, DNS, dialing, HTTP and
 *  SHA-256 are parameters. */
module Remote {
  import opened Wrappers
  import opened Text
  import opened Seqs

  // ---------------------------------------------------------------------------
  // net.IP classification

  /** An address as `net.IP` holds it: 4 bytes, or 16 (IPv6, and IPv4 in its
   *  mapped form). */
  type IP = seq<bv8>

  /** The mapped IPv6 form `::ffff:a.b.c.d` of an IPv4 address. */
  function V4InV6(a: IP): IP
    requires |a| == 4
  {
    [0, 0, 0, 0, 0, 0, 0, 0, 0, 0, 0xff, 0xff] + a
  }

  /** `To4`: the IPv4 address a 4-byte address or a mapped 16-byte one stands
   *  for. */
  function To4(ip: IP): (r: Option<IP>)
    ensures r.Some? ==> |r.value| == 4
  {
    if |ip| == 4 then Some(ip)
    else if |ip| == 16 && (forall k :: 0 <= k < 10 ==> ip[k] == 0) && ip[10] == 0xff && ip[11] == 0xff then Some(ip[12..])
    else None
  }

  const IPv6Loopback: IP := [0, 0, 0, 0, 0, 0, 0, 0, 0, 0, 0, 0, 0, 0, 0, 1]
  const IPv6Unspecified: IP := [0, 0, 0, 0, 0, 0, 0, 0, 0, 0, 0, 0, 0, 0, 0, 0]

  predicate IsLoopback(ip: IP)
  {
    var v4 := To4(ip);
    if v4.Some? then v4.value[0] == 127 else ip == IPv6Loopback
  }

  predicate IsPrivate(ip: IP)
  {
    var v4 := To4(ip);
    if v4.Some? then
      var a := v4.value;
      a[0] == 10 || (a[0] == 172 && a[1] & 0xf0 == 16) || (a[0] == 192 && a[1] == 168)
    else |ip| == 16 && ip[0] & 0xfe == 0xfc
  }

  predicate IsLinkLocalUnicast(ip: IP)
  {
    var v4 := To4(ip);
    if v4.Some? then v4.value[0] == 169 && v4.value[1] == 254
    else |ip| == 16 && ip[0] == 0xfe && ip[1] & 0xc0 == 0x80
  }

  predicate IsLinkLocalMulticast(ip: IP)
  {
    var v4 := To4(ip);
    if v4.Some? then v4.value[0] == 224 && v4.value[1] == 0 && v4.value[2] == 0
    else |ip| == 16 && ip[0] == 0xff && ip[1] & 0x0f == 0x02
  }

  /** `Equal(IPv4zero) || Equal(IPv6unspecified)`. */
  predicate IsUnspecified(ip: IP)
  {
    To4(ip) == Some([0, 0, 0, 0]) || ip == IPv6Unspecified
  }

  /** `isBlockedIP`. */
  predicate IsBlockedIP(ip: IP)
  {
    IsLoopback(ip) || IsPrivate(ip) || IsLinkLocalUnicast(ip) || IsLinkLocalMulticast(ip) || IsUnspecified(ip)
  }

  /** The blocked IPv4 ranges as the standards write them: 127.0.0.0/8
   *  (loopback), 10.0.0.0/8, 172.16.0.0/12 and 192.168.0.0/16 (section 3 of
   *  RFC 1918), 169.254.0.0/16 (section 2.1 of RFC 3927), 224.0.0.0/24 (local
   *  network multicast) and 0.0.0.0. */
  predicate BlockedV4(a: IP)
    requires |a| == 4
  {
    a[0] == 127 || a[0] == 10 || (a[0] == 172 && 16 <= a[1] <= 31) || (a[0] == 192 && a[1] == 168)
    || (a[0] == 169 && a[1] == 254) || (a[0] == 224 && a[1] == 0 && a[2] == 0) || a == [0, 0, 0, 0]
  }

  /** The blocked IPv6 ranges: ::1 (section 2.5.3 of RFC 4291), fc00::/7
   *  (section 3.1 of RFC 4193), fe80::/10 (section 2.5.6 of RFC 4291),
   *  multicast with link-local scope ffX2::/16 (section 2.7 of RFC 4291) and ::
   *  (section 2.5.2 of RFC 4291). */
  predicate BlockedV6(ip: IP)
    requires |ip| == 16
  {
    ip == IPv6Loopback || 0xfc <= ip[0] <= 0xfd || (ip[0] == 0xfe && 0x80 <= ip[1] <= 0xbf)
    || (ip[0] == 0xff && ip[1] % 16 == 2) || ip == IPv6Unspecified
  }

  lemma MasksV4(a: IP)
    requires |a| == 4
    ensures (a[1] & 0xf0 == 16) <==> 16 <= a[1] <= 31
  {
  }

  lemma MasksV6(ip: IP)
    requires |ip| == 16
    ensures (ip[0] & 0xfe == 0xfc) <==> 0xfc <= ip[0] <= 0xfd
    ensures (ip[1] & 0xc0 == 0x80) <==> 0x80 <= ip[1] <= 0xbf
    ensures (ip[1] & 0x0f == 0x02) <==> ip[1] % 16 == 2
  {
  }

  /** `isBlockedIP` blocks exactly the listed ranges: a 4-byte address and its
   *  mapped form by the IPv4 ranges, any other 16-byte address by the IPv6
   *  ranges, and nothing of another length. */
  lemma BlockedIPRanges(ip: IP)
    ensures To4(ip).Some? ==> (IsBlockedIP(ip) <==> BlockedV4(To4(ip).value))
    ensures |ip| == 16 && To4(ip).None? ==> (IsBlockedIP(ip) <==> BlockedV6(ip))
    ensures |ip| != 4 && |ip| != 16 ==> !IsBlockedIP(ip)
  {
    if To4(ip).Some? {
      MasksV4(To4(ip).value);
    } else if |ip| == 16 {
      MasksV6(ip);
      if ip == IPv6Unspecified {
        assert ip[10] == 0;
      }
    }
  }

  /** An IPv4 address is classified the same in its mapped IPv6 form. */
  lemma MappedAsV4(a: IP)
    requires |a| == 4
    ensures To4(V4InV6(a)) == Some(a)
    ensures IsBlockedIP(V4InV6(a)) == IsBlockedIP(a)
  {
    assert V4InV6(a)[12..] == a;
    assert V4InV6(a) != IPv6Unspecified by { assert V4InV6(a)[10] != IPv6Unspecified[10]; }
  }

  lemma BlockedV4Examples()
    ensures IsBlockedIP([127, 0, 0, 1]) && IsBlockedIP([10, 0, 0, 1]) && IsBlockedIP([172, 16, 0, 1])
    ensures IsBlockedIP([192, 168, 1, 1]) && IsBlockedIP([169, 254, 169, 254]) && IsBlockedIP([0, 0, 0, 0])
    ensures !IsBlockedIP([8, 8, 8, 8]) && !IsBlockedIP([172, 32, 0, 1])
  {
  }

  lemma BlockedV6Examples()
    ensures IsBlockedIP(IPv6Loopback) && IsBlockedIP(IPv6Unspecified)
    ensures IsBlockedIP([0xfe, 0x80, 0, 0, 0, 0, 0, 0, 0, 0, 0, 0, 0, 0, 0, 1])
    ensures !IsBlockedIP([0x20, 0x01, 0x48, 0x60, 0x48, 0x60, 0, 0, 0, 0, 0, 0, 0, 0, 0x88, 0x88])
  {
    var public6: IP := [0x20, 0x01, 0x48, 0x60, 0x48, 0x60, 0, 0, 0, 0, 0, 0, 0, 0, 0x88, 0x88];
    assert To4(public6).None? by { assert public6[0] != 0; }
    assert public6 != IPv6Loopback && public6 != IPv6Unspecified by { assert public6[0] != 0; }
    var ll6: IP := [0xfe, 0x80, 0, 0, 0, 0, 0, 0, 0, 0, 0, 0, 0, 0, 0, 1];
    assert To4(ll6).None? by { assert ll6[0] != 0; }
    assert To4(IPv6Loopback).None? by { assert IPv6Loopback[10] != 0xff; }
    assert To4(IPv6Unspecified).None? by { assert IPv6Unspecified[10] != 0xff; }
  }

  // ---------------------------------------------------------------------------
  // Host names

  /** `isBlockedHostname`: "localhost" in any ASCII letter case. */
  predicate IsBlockedHostname(hostname: string)
  {
    EqualFoldAscii(hostname, "localhost")
  }

  /** The host of `isBlockedHost` with a port removed: the text inside a leading
   *  "[...]" when it closes, the text before the colon when there is exactly
   *  one, and the host unchanged otherwise. */
  function NormalizeHost(host: string): string
  {
    if HasPrefix(host, "[") then
      var idx := IndexOf(host, ']');
      if idx != -1 then host[1..idx] else host
    else
      var idx := LastIndexOf(host, ':');
      if idx != -1 && Count(host, ':') == 1 then host[..idx] else host
  }

  /** `isBlockedHost`; `parseIP` is `net.ParseIP`. */
  predicate IsBlockedHost(host: string, parseIP: string -> Option<IP>)
  {
    var hostname := NormalizeHost(host);
    IsBlockedHostname(hostname) || (parseIP(hostname).Some? && IsBlockedIP(parseIP(hostname).value))
  }

  /** A bracketed host loses its brackets and anything after them. */
  lemma NormalizeBracketed(x: string, rest: string)
    requires ']' !in x
    ensures NormalizeHost("[" + x + "]" + rest) == x
  {
    var b := "[" + x + "]" + rest;
    assert b[..1] == "[" && b[1..|x| + 1] == x && b[|x| + 1] == ']';
    assert b[..|x| + 1] == "[" + x;
    IndexOfUnique(b, ']', |x| + 1);
  }

  /** A host with exactly one colon loses the port after it. */
  lemma NormalizePort(name: string, port: string)
    requires ':' !in name && ':' !in port && (name == [] || name[0] != '[')
    ensures NormalizeHost(name + ":" + port) == name
  {
    var h := name + ":" + port;
    assert Count(h, ':') == 1 by {
      assert h == name + (":" + port);
      CountAppend(name, ":" + port, ':');
      CountAppend(":", port, ':');
      CountZero(name, ':');
      CountZero(port, ':');
    }
    assert LastIndexOf(h, ':') == |name| by {
      assert h[|name|] == ':' && h[|name| + 1..] == port;
      LastIndexOfUnique(h, ':', |name|);
    }
    assert !HasPrefix(h, "[") by {
      assert h[0] == if name == [] then ':' else name[0];
    }
    assert h[..|name|] == name;
  }

  /** A host without a colon, or with several outside brackets (a bare IPv6
   *  address), is unchanged. */
  lemma NormalizeUnchanged(h: string)
    requires (h == [] || h[0] != '[') && (':' !in h || Count(h, ':') > 1)
    ensures NormalizeHost(h) == h
  {
    CountZero(h, ':');
  }

  lemma NormalizeNoColon(h: string)
    requires (h == [] || h[0] != '[') && ':' !in h
    ensures NormalizeHost(h) == h
  {
    NormalizeUnchanged(h);
  }

  /** Localhost is blocked in any ASCII letter case, whatever the address
   *  parser says. */
  lemma LocalhostAnyCase(h: string, parseIP: string -> Option<IP>)
    requires EqualFoldAscii(h, "localhost")
    ensures IsBlockedHost(h, parseIP)
  {
    assert ':' !in h by {
      forall i | 0 <= i < |h| ensures h[i] != ':' {
        assert ToLowerAscii(h[i]) == ToLowerAscii("localhost"[i]);
      }
    }
    assert h[0] != '[' by { assert ToLowerAscii(h[0]) == 'l'; }
    NormalizeNoColon(h);
  }

  /** Localhost with any port is blocked, whatever the address parser says. */
  lemma LocalhostAnyPort(port: string, parseIP: string -> Option<IP>)
    requires ':' !in port
    ensures IsBlockedHost("localhost:" + port, parseIP)
  {
    assert "localhost:" + port == "localhost" + ":" + port;
    NormalizePort("localhost", port);
    LocalhostNames();
  }

  /** An address literal with a port is judged by the name check and the
   *  blocked ranges of its address. */
  lemma LiteralWithPort(ip: string, a: IP, port: string, parseIP: string -> Option<IP>)
    requires parseIP(ip) == Some(a)
    requires ':' !in ip && ':' !in port && (ip == [] || ip[0] != '[')
    ensures IsBlockedHost(ip + ":" + port, parseIP) <==> IsBlockedHostname(ip) || IsBlockedIP(a)
  {
    NormalizePort(ip, port);
  }

  /** A bracketed address literal, with or without a port after the bracket,
   *  is judged by the name check and the blocked ranges of its address. */
  lemma LiteralBracketed(ip: string, a: IP, rest: string, parseIP: string -> Option<IP>)
    requires parseIP(ip) == Some(a) && ']' !in ip
    ensures IsBlockedHost("[" + ip + "]" + rest, parseIP) <==> IsBlockedHostname(ip) || IsBlockedIP(a)
  {
    NormalizeBracketed(ip, rest);
  }

  /** A name without a port that is not localhost and that the address parser
   *  does not accept is allowed. */
  lemma PublicNameAllowed(h: string, parseIP: string -> Option<IP>)
    requires ':' !in h && (h == [] || h[0] != '[')
    requires !IsBlockedHostname(h) && parseIP(h).None?
    ensures !IsBlockedHost(h, parseIP)
  {
    NormalizeNoColon(h);
  }

  /** Examples: `localhost` and `LocalHost` are blocked, whatever the address
   *  parser says. */
  lemma LocalhostBlocked(parseIP: string -> Option<IP>)
    ensures IsBlockedHost("localhost", parseIP) && IsBlockedHost("LocalHost", parseIP)
  {
    NormalizeNames();
    LocalhostNames();
  }

  lemma LocalhostNames()
    ensures IsBlockedHostname("localhost") && IsBlockedHostname("LocalHost")
  {
  }

  /** Example: `localhost:8080` is blocked. */
  lemma LocalhostPortBlocked(parseIP: string -> Option<IP>)
    ensures IsBlockedHost("localhost:8080", parseIP)
  {
    NormalizePorts();
  }

  /** Examples: `127.0.0.1:443` and `[::1]:443` are blocked. */
  lemma LiteralHostBlocked(parseIP: string -> Option<IP>)
    ensures parseIP("127.0.0.1") == Some([127, 0, 0, 1]) ==> IsBlockedHost("127.0.0.1:443", parseIP)
    ensures parseIP("::1") == Some(IPv6Loopback) ==> IsBlockedHost("[::1]:443", parseIP)
  {
    NormalizePorts();
    NormalizeLoopback6();
    Loopback6Blocked();
  }

  /** Example: `example.com` is allowed when the address parser rejects it. */
  lemma PublicHostAllowed(parseIP: string -> Option<IP>)
    ensures parseIP("example.com").None? ==> !IsBlockedHost("example.com", parseIP)
  {
    NormalizeNames();
    assert !IsBlockedHostname("example.com") by { assert ToLowerAscii('e') != ToLowerAscii('l'); }
  }

  lemma NormalizeNames()
    ensures NormalizeHost("localhost") == "localhost" && NormalizeHost("LocalHost") == "LocalHost"
    ensures NormalizeHost("example.com") == "example.com"
  {
    NormalizeNoColon("localhost");
    NormalizeNoColon("LocalHost");
    NormalizeNoColon("example.com");
  }

  lemma NormalizePorts()
    ensures NormalizeHost("localhost:8080") == "localhost"
    ensures NormalizeHost("127.0.0.1:443") == "127.0.0.1"
  {
    assert "localhost:8080" == "localhost" + ":" + "8080";
    NormalizePort("localhost", "8080");
    assert "127.0.0.1:443" == "127.0.0.1" + ":" + "443";
    NormalizePort("127.0.0.1", "443");
  }

  lemma NormalizeLoopback6()
    ensures NormalizeHost("[::1]:443") == "::1"
  {
    assert "[::1]:443" == "[" + "::1" + "]" + ":443";
    NormalizeBracketed("::1", ":443");
  }

  lemma Loopback6Blocked()
    ensures IsBlockedIP(IPv6Loopback)
  {
    assert To4(IPv6Loopback).None? by { assert IPv6Loopback[10] != 0xff; }
  }

  // ---------------------------------------------------------------------------
  // Policy names and checksums

  /** What `url.Parse` gives that the model needs. */
  datatype URL = URL(scheme: string, host: string, path: string)

  /** `policyNameFromURL`; `parsed` is the outcome of `url.Parse(rawURL)`. */
  function PolicyNameFromURL(rawURL: string, parsed: Option<URL>): string
  {
    if parsed.None? then rawURL
    else
      var u := parsed.value;
      var name := Base(TrimTrailingSlashes(u.path));
      if name == "" || name == "." || name == "/" then u.host + ".rego"
      else if !HasSuffix(name, ".rego") then u.host + ".rego"
      else name
  }

  /** A parsed URL names a ".rego" file: the last path element when it is one,
   *  otherwise the host with ".rego" appended; the last element never contains
   *  '/'. An unparsable URL is its own name. */
  lemma PolicyNameFacts(rawURL: string, u: URL)
    ensures HasSuffix(PolicyNameFromURL(rawURL, Some(u)), ".rego")
    ensures PolicyNameFromURL(rawURL, Some(u)) == u.host + ".rego"
      || '/' !in PolicyNameFromURL(rawURL, Some(u))
    ensures PolicyNameFromURL(rawURL, None) == rawURL
  {
    assert HasSuffix(u.host + ".rego", ".rego") by {
      var s := u.host + ".rego";
      assert s[|s| - 5..] == ".rego";
    }
  }

  /** A path ending in a non-empty segment names the policy after that segment
   *  when it is a ".rego" file and after the host otherwise. */
  lemma PolicyNameOfSegment(rawURL: string, u: URL, dir: string, segment: string)
    requires u.path == dir + "/" + segment && segment != "" && '/' !in segment
    ensures PolicyNameFromURL(rawURL, Some(u)) == if HasSuffix(segment, ".rego") then segment else u.host + ".rego"
  {
    var p := u.path;
    assert p[|p| - 1] == segment[|segment| - 1];
    assert TrimTrailingSlashes(p) == p;
    assert p[|dir|] == '/' && p[|dir| + 1..] == segment;
    LastIndexOfUnique(p, '/', |dir|);
    assert Base(p) == segment;
  }

  /** Trailing slashes do not change the name. */
  lemma PolicyNameTrailingSlash(rawURL: string, u: URL)
    ensures PolicyNameFromURL(rawURL, Some(u.(path := u.path + "/"))) == PolicyNameFromURL(rawURL, Some(u))
  {
    var p := u.path + "/";
    assert p[..|p| - 1] == u.path;
  }

  /** A URL without a path, or with the root path, is named after its host. */
  lemma PolicyNameNoPath(rawURL: string, u: URL)
    requires u.path == "" || u.path == "/"
    ensures PolicyNameFromURL(rawURL, Some(u)) == u.host + ".rego"
  {
    assert TrimTrailingSlashes("/") == "" by { assert "/"[..0] == ""; }
  }

  /** `verifyChecksum`: an optional "sha256:" prefix is removed and the rest is
   *  compared exactly with `digest(data)`, the lowercase hex SHA-256 of the
   *  data. */
  function VerifyChecksum(data: seq<bv8>, expected: string, digest: seq<bv8> -> string): Result<()>
  {
    var want := TrimPrefix(expected, "sha256:");
    if digest(data) != want then Failure("checksum mismatch") else Success(())
  }

  /** The digest is accepted with or without the prefix; the comparison is
   *  case-sensitive, so a checksum that differs from the digest only in letter
   *  case is refused. */
  lemma ChecksumFacts(data: seq<bv8>, digest: seq<bv8> -> string, other: string)
    requires !HasPrefix(digest(data), "sha256:") && !HasPrefix(other, "sha256:")
    ensures VerifyChecksum(data, digest(data), digest).Success?
    ensures VerifyChecksum(data, "sha256:" + digest(data), digest).Success?
    ensures other != digest(data) ==> VerifyChecksum(data, other, digest).Failure?
  {
    assert ("sha256:" + digest(data))[7..] == digest(data);
  }

  // ---------------------------------------------------------------------------
  // fetchPolicy

  const MaxPolicySize: nat := 10 * 1024 * 1024

  datatype RemotePolicy = RemotePolicy(url: string, checksum: string)

  /** An HTTP response as far as `fetchPolicy` reads it: the status, the body,
   *  and whether reading the body fails. */
  datatype Response = Response(status: int, body: seq<bv8>, readFails: bool)

  /** The outside world of a fetch: URL and IP parsing, the request (redirects
   *  are returned, not followed), and the digest. */
  datatype Net = Net(
    parseURL: string -> Option<URL>,
    parseIP: string -> Option<IP>,
    get: string -> Result<Response>,
    digest: seq<bv8> -> string)

  /** A Go string of the fetched bytes. */
  function BytesToString(b: seq<bv8>): string
  {
    seq(|b|, i requires 0 <= i < |b| => (b[i] as int) as char)
  }

  /** The checks before any request: a URL that parses, uses "https" and does
   *  not name a blocked host. */
  function RequestGate(remote: RemotePolicy, net: Net): Option<string>
  {
    var u := net.parseURL(remote.url);
    if u.None? then Some("invalid URL")
    else if u.value.scheme != "https" then Some("insecure URL scheme: only https allowed")
    else if IsBlockedHost(u.value.host, net.parseIP) then Some("blocked host: internal/private addresses not allowed")
    else None
  }

  /** `fetchPolicy`: the request gate, the request, status 200, a body read
   *  through a limit one byte over the maximum and refused when over it, then
   *  the checksum when one is configured. */
  function FetchPolicy(remote: RemotePolicy, net: Net): Result<string>
  {
    var gate := RequestGate(remote, net);
    if gate.Some? then Failure(gate.value)
    else
      var resp := net.get(remote.url);
      if resp.Failure? then Failure("fetching: " + resp.error)
      else if resp.value.status != 200 then Failure("fetching: bad status")
      else if resp.value.readFails then Failure("reading body")
      else
        var all := resp.value.body;
        var body := if |all| > MaxPolicySize + 1 then all[..MaxPolicySize + 1] else all;
        if |body| > MaxPolicySize then Failure("policy exceeds maximum size")
        else if remote.checksum != "" && VerifyChecksum(body, remote.checksum, net.digest).Failure? then
          Failure("verifying: checksum mismatch")
        else Success(BytesToString(body))
  }

  /** A URL refused by the request gate is refused whatever the network would
   *  have answered: no request decides the outcome. */
  lemma GateBeforeRequest(remote: RemotePolicy, net: Net, get': string -> Result<Response>)
    requires RequestGate(remote, net).Some?
    ensures FetchPolicy(remote, net) == FetchPolicy(remote, net.(get := get')) == Failure(RequestGate(remote, net).value)
  {
  }

  /** A fetched policy is the whole body, at most 10 MiB, from a status-200
   *  https response whose body matches the checksum when one is configured;
   *  a longer body is refused rather than cut. */
  lemma FetchPolicyFacts(remote: RemotePolicy, net: Net)
    ensures FetchPolicy(remote, net).Success? ==>
      var u := net.parseURL(remote.url);
      var resp := net.get(remote.url);
      u.Some? && u.value.scheme == "https" && !IsBlockedHost(u.value.host, net.parseIP)
      && resp.Success? && resp.value.status == 200
      && |resp.value.body| <= MaxPolicySize
      && FetchPolicy(remote, net).value == BytesToString(resp.value.body)
      && (remote.checksum != "" ==> VerifyChecksum(resp.value.body, remote.checksum, net.digest).Success?)
    ensures net.get(remote.url).Success? && |net.get(remote.url).value.body| > MaxPolicySize ==> FetchPolicy(remote, net).Failure?
  {
  }

  // ---------------------------------------------------------------------------
  // safeDialContext

  /** What dialing needs from outside: `net.SplitHostPort`, the DNS lookup, and
   *  whether dialing one address fails (and with which error). */
  datatype Dialer = Dialer(
    splitHostPort: string -> Option<(string, string)>,
    lookupIP: string -> Result<seq<IP>>,
    dialError: IP -> Option<string>)

  /** The first address of `ips` that dials, or the error of the last one. */
  function DialFirst(ips: seq<IP>, dialError: IP -> Option<string>, lastErr: string): Result<IP>
  {
    if ips == [] then Failure("failed to connect: " + lastErr)
    else if dialError(ips[0]).None? then Success(ips[0])
    else DialFirst(ips[1..], dialError, dialError(ips[0]).value)
  }

  /** `safeDialContext`, as a function of its outcome. */
  function SafeDial(addr: string, d: Dialer): Result<IP>
  {
    var hp := d.splitHostPort(addr);
    if hp.None? then Failure("invalid address")
    else if IsBlockedHostname(hp.value.0) then Failure("blocked hostname")
    else
      var ips := d.lookupIP(hp.value.0);
      if ips.Failure? then Failure("DNS lookup: " + ips.error)
      else if ips.value == [] then Failure("no IP addresses found")
      else if exists k :: 0 <= k < |ips.value| && IsBlockedIP(ips.value[k]) then Failure("blocked IP")
      else DialFirst(ips.value, d.dialError, "")
  }

  /** `safeDialContext`: the address is split, the host name checked, the host
   *  resolved, every address checked (the first blocked one refuses the whole
   *  dial), and only then are the addresses dialled in order. */
  method SafeDialContext(addr: string, d: Dialer) returns (r: Result<IP>)
    ensures r == SafeDial(addr, d)
  {
    var hp := d.splitHostPort(addr);
    if hp.None? {
      return Failure("invalid address");
    }
    var host := hp.value.0;
    if IsBlockedHostname(host) {
      return Failure("blocked hostname");
    }
    var lookup := d.lookupIP(host);
    if lookup.Failure? {
      return Failure("DNS lookup: " + lookup.error);
    }
    var ips := lookup.value;
    if |ips| == 0 {
      return Failure("no IP addresses found");
    }
    var safeIPs: seq<IP> := [];
    var i := 0;
    while i < |ips|
      invariant 0 <= i <= |ips|
      invariant safeIPs == ips[..i]
      invariant forall k :: 0 <= k < i ==> !IsBlockedIP(ips[k])
    {
      if IsBlockedIP(ips[i]) {
        return Failure("blocked IP");
      }
      safeIPs := safeIPs + [ips[i]];
      i := i + 1;
    }
    assert safeIPs == ips;
    var lastErr := "";
    var j := 0;
    while j < |safeIPs|
      invariant 0 <= j <= |safeIPs|
      invariant DialFirst(safeIPs[j..], d.dialError, lastErr) == DialFirst(safeIPs, d.dialError, "")
    {
      var err := d.dialError(safeIPs[j]);
      if err.None? {
        return Success(safeIPs[j]);
      }
      assert safeIPs[j..][1..] == safeIPs[j + 1..];
      lastErr := err.value;
      j := j + 1;
    }
    return Failure("failed to connect: " + lastErr);
  }

  /** A connection goes to a resolved, unblocked address that dials, after
   *  every earlier address failed to; a blocked address anywhere in the lookup
   *  means no address is dialled at all. */
  lemma {:induction false} DialFirstFacts(ips: seq<IP>, dialError: IP -> Option<string>, lastErr: string)
    ensures DialFirst(ips, dialError, lastErr).Success? ==>
      exists k :: 0 <= k < |ips| && ips[k] == DialFirst(ips, dialError, lastErr).value
        && dialError(ips[k]).None? && forall j :: 0 <= j < k ==> dialError(ips[j]).Some?
    ensures (forall k :: 0 <= k < |ips| ==> dialError(ips[k]).Some?) ==> DialFirst(ips, dialError, lastErr).Failure?
  {
    if ips != [] && dialError(ips[0]).Some? {
      DialFirstFacts(ips[1..], dialError, dialError(ips[0]).value);
      if DialFirst(ips, dialError, lastErr).Success? {
        var k :| 0 <= k < |ips[1..]| && ips[1..][k] == DialFirst(ips, dialError, lastErr).value
          && dialError(ips[1..][k]).None? && forall j :: 0 <= j < k ==> dialError(ips[1..][j]).Some?;
        assert ips[k + 1] == ips[1..][k];
        assert forall j :: 1 <= j < k + 1 ==> ips[j] == ips[1..][j - 1];
      }
    }
  }

  lemma SafeDialFacts(addr: string, d: Dialer, dialError': IP -> Option<string>)
    ensures SafeDial(addr, d).Success? ==>
      var hp := d.splitHostPort(addr);
      hp.Some? && !IsBlockedHostname(hp.value.0) && d.lookupIP(hp.value.0).Success?
      && SafeDial(addr, d).value in d.lookupIP(hp.value.0).value
      && !IsBlockedIP(SafeDial(addr, d).value) && d.dialError(SafeDial(addr, d).value).None?
    ensures var hp := d.splitHostPort(addr);
      hp.Some? && d.lookupIP(hp.value.0).Success?
      && (exists k :: 0 <= k < |d.lookupIP(hp.value.0).value| && IsBlockedIP(d.lookupIP(hp.value.0).value[k]))
      ==> SafeDial(addr, d).Failure? && SafeDial(addr, d) == SafeDial(addr, d.(dialError := dialError'))
  {
    var hp := d.splitHostPort(addr);
    if hp.Some? && !IsBlockedHostname(hp.value.0) && d.lookupIP(hp.value.0).Success? {
      DialFirstFacts(d.lookupIP(hp.value.0).value, d.dialError, "");
    }
  }

  // ---------------------------------------------------------------------------
  // FetchRemotePolicies

  /** The fetch of one remote and the name its policy is stored under, as
   *  `FetchRemotePolicies` computes them. */
  function Fetch(net: Net): RemotePolicy -> Result<string>
  {
    (r: RemotePolicy) => FetchPolicy(r, net)
  }

  function NameOf(net: Net): RemotePolicy -> string
  {
    (r: RemotePolicy) => PolicyNameFromURL(r.url, net.parseURL(r.url))
  }

  /** `FetchRemotePolicies`: the remotes fetched in order, stopping at the
   *  first failure; a later remote wins a shared name (the fail-fast fold
   *  `AssignAll` and its lemmas). */
  method FetchRemotePolicies(remotes: seq<RemotePolicy>, net: Net) returns (r: Result<map<string, string>>)
    ensures r == AssignAll(remotes, Fetch(net), NameOf(net))
  {
    var policies: map<string, string> := map[];
    var i := 0;
    while i < |remotes|
      invariant 0 <= i <= |remotes|
      invariant AssignAll(remotes[..i], Fetch(net), NameOf(net)) == Success(policies)
    {
      var remote := remotes[i];
      AssignAllSnoc(remotes, i, Fetch(net), NameOf(net), policies);
      var content := FetchPolicy(remote, net);
      assert Fetch(net)(remote) == content;
      if content.Failure? {
        AssignAllFailed(remotes, Fetch(net), NameOf(net), i + 1);
        return Failure(content.error);
      }
      var name := PolicyNameFromURL(remote.url, net.parseURL(remote.url));
      assert NameOf(net)(remote) == name;
      policies := policies[name := content.value];
      i := i + 1;
    }
    assert remotes[..|remotes|] == remotes;
    return Success(policies);
  }

  /** Fetched policies come back only when every remote passes all the gates
   *  of `fetchPolicy`, each under its name with the later remote winning;
   *  otherwise the error is the first failing remote's. */
  lemma RemotePoliciesFacts(remotes: seq<RemotePolicy>, net: Net)
    ensures AssignAll(remotes, Fetch(net), NameOf(net)).Success? <==> forall k :: 0 <= k < |remotes| ==> FetchPolicy(remotes[k], net).Success?
    ensures AssignAll(remotes, Fetch(net), NameOf(net)).Success? ==>
      AssignAll(remotes, Fetch(net), NameOf(net)).value == Assign(remotes, EntryOf(Fetch(net), NameOf(net)))
    ensures AssignAll(remotes, Fetch(net), NameOf(net)).Failure? ==>
      exists k :: 0 <= k < |remotes| && FetchPolicy(remotes[k], net) == Failure(AssignAll(remotes, Fetch(net), NameOf(net)).error)
  {
    AssignAllSucceeds(remotes, Fetch(net), NameOf(net));
    if AssignAll(remotes, Fetch(net), NameOf(net)).Success? {
      AssignAllContents(remotes, Fetch(net), NameOf(net));
    } else {
      AssignAllFirstFailure(remotes, Fetch(net), NameOf(net));
    }
  }
}
