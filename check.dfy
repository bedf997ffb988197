/** The probing engine of one target (internal/httpver/check.go): target
    validation, the four version probes and how their outcomes are classified,
    the assembly of a CheckResult in fixed slots, grading, the ordered
    multi-target batch and the worker-count clamp.

    The network, `url.Parse` and `net.ParseIP` are not modelled; they are
    supplied in an `Env`: `parse` is what `url.Parse` reports for a string,
    `isIP` whether `net.ParseIP` accepts a host name, and `net` the outcome a
    probe request meets. */
module Check {
  import opened Wrappers
  import opened Strings
  import Grade

  // ---------------------------------------------------------------- data

  /** One protocol version's finding. */
  datatype VersionResult = VersionResult(
    version: String,
    supported: bool,
    detail: String,
    evidence: String,
    error: bool)

  /** The full finding for one target. */
  datatype CheckResult = CheckResult(
    target: String,
    url: String,
    port: String,
    results: seq<VersionResult>,
    score: int,
    grade: String,
    alpn: String,
    tlsVersion: String,
    unresolved: bool)

  /** What `url.Parse` yields, as far as the scanner looks at it: the scheme,
      the user information as `String()` prints it (`user:pass@`, empty when
      there is none), the authority `Host` (with any port), `Hostname()`,
      `Port()`, the host part `net.SplitHostPort(Host)` returns (None when it
      reports an error), and everything `String()` prints after the
      authority. */
  datatype Url = Url(
    scheme: String,
    userinfo: String,
    host: String,
    hostname: String,
    port: String,
    hostPart: Option<String>,
    rest: String)

  /** `u.String()`. */
  function UrlString(u: Url): String {
    u.scheme + "://" + u.userinfo + u.host + u.rest
  }

  datatype Protocol = Http10 | Http11 | Http2 | Http3

  /** A probe request: which protocol's client, against which URL. */
  datatype Request = Request(protocol: Protocol, url: String)

  /** The kinds of transport error the scanner tells apart: a TCP refusal
      (`ECONNREFUSED` inside a `net.OpError`), a DNS "no such host"
      (`net.DNSError` with `IsNotFound`), and anything else. */
  datatype ErrorKind = ConnectionRefused | DnsNotFound | OtherError

  datatype ProbeError = ProbeError(kind: ErrorKind, message: String)

  /** The TLS connection state of a response: the version code and the
      ALPN-negotiated protocol name. */
  datatype TlsState = TlsState(version: int, negotiatedProtocol: String)

  /** What a probe meets: `http.NewRequest` failing, the client reporting a
      transport error, or a response with its wire protocol version. */
  datatype Outcome =
    | BuildFailed(message: String)
    | Failed(err: ProbeError)
    | Response(protoMajor: int, protoMinor: int, proto: String, tls: Option<TlsState>)

  datatype Env = Env(
    parse: String -> Result<Url, String>,
    isIP: String -> bool,
    net: Request -> Outcome)

  // ------------------------------------------------------ hostname checks

  const MaxHostnameLength := 253
  const MaxLabelLength := 63

  predicate IsHostnameChar(c: char) {
    ('a' <= c <= 'z') || ('A' <= c <= 'Z') || ('0' <= c <= '9') || c == '-'
  }

  /** One DNS label: non-empty, at most 63 characters, letters, digits and
      hyphens only, no hyphen at either end. */
  predicate ValidLabel(part: String) {
    part != "" && |part| <= MaxLabelLength
    && part[0] != '-' && part[|part| - 1] != '-'
    && forall i :: 0 <= i < |part| ==> IsHostnameChar(part[i])
  }

  /** The labels of a host name, after one trailing dot is dropped. */
  function Labels(host: String): seq<String> {
    var h := if HasSuffix(host, ".") then host[..|host| - 1] else host;
    Split(h, '.')
  }

  /** `isValidHostname`. */
  predicate IsValidHostname(host: String) {
    host != "" && |host| <= MaxHostnameLength
    && var labels := Labels(host);
    |labels| != 0 && forall k :: 0 <= k < |labels| ==> ValidLabel(labels[k])
  }

  /** Every character of a split string is a separator or a character of some
      piece: if all pieces use only host name characters, so does the string,
      separators apart. */
  lemma {:induction false} SplitHostnameChars(s: String)
    requires forall k, j :: 0 <= k < |Split(s, '.')| && 0 <= j < |Split(s, '.')[k]| ==> IsHostnameChar(Split(s, '.')[k][j])
    ensures forall i :: 0 <= i < |s| ==> s[i] == '.' || IsHostnameChar(s[i])
    decreases |s|
  {
    if |s| > 0 {
      var parts, rest := Split(s, '.'), Split(s[1..], '.');
      if s[0] == '.' {
        assert forall k :: 0 <= k < |rest| ==> rest[k] == parts[k + 1];
      } else {
        assert parts[0] == [s[0]] + rest[0];
        assert parts[0][0] == s[0];
        assert forall j :: 0 <= j < |rest[0]| ==> rest[0][j] == parts[0][j + 1];
        assert forall k :: 1 <= k < |rest| ==> rest[k] == parts[k];
      }
      SplitHostnameChars(s[1..]);
      forall i | 1 <= i < |s|
        ensures s[i] == '.' || IsHostnameChar(s[i])
      {
        assert s[i] == s[1..][i - 1];
      }
    }
  }

  /** What passes the check is made of letters, digits, hyphens and dots
      only, and starts with neither a dot nor a hyphen. */
  lemma ValidHostnameShape(host: String)
    requires IsValidHostname(host)
    ensures forall i :: 0 <= i < |host| ==> host[i] == '.' || IsHostnameChar(host[i])
    ensures host[0] != '.' && host[0] != '-'
  {
    var h := if HasSuffix(host, ".") then host[..|host| - 1] else host;
    var labels := Split(h, '.');
    forall k, j | 0 <= k < |labels| && 0 <= j < |labels[k]|
      ensures IsHostnameChar(labels[k][j])
    {
      assert ValidLabel(labels[k]);
    }
    SplitHostnameChars(h);
    assert forall i :: 0 <= i < |h| ==> host[i] == h[i];
    assert ValidLabel(labels[0]);
    if |h| > 0 && h[0] != '.' {
      assert labels[0][0] == h[0];
    }
  }

  /** Conversely, any non-empty list of valid labels joined by dots, with or
      without one trailing dot, passes the check when it fits in 253
      characters, and its labels are the ones joined. */
  lemma ValidHostnameFromLabels(labels: seq<String>, trailingDot: bool)
    requires |labels| >= 1
    requires forall k :: 0 <= k < |labels| ==> ValidLabel(labels[k])
    requires |Join(labels, '.')| + (if trailingDot then 1 else 0) <= MaxHostnameLength
    ensures var host := Join(labels, '.') + (if trailingDot then "." else "");
      IsValidHostname(host) && Labels(host) == labels
  {
    var joined := Join(labels, '.');
    var host := joined + (if trailingDot then "." else "");
    forall k | 0 <= k < |labels|
      ensures '.' !in labels[k]
    {
      assert ValidLabel(labels[k]);
      forall i | 0 <= i < |labels[k]| ensures labels[k][i] != '.' {
        assert IsHostnameChar(labels[k][i]);
      }
    }
    SplitJoin(labels, '.');
    JoinLastChar(labels);
    if trailingDot {
      assert host[..|host| - 1] == joined;
    } else {
      assert host == joined;
    }
  }

  /** A join of valid labels ends with the last label's last character,
      which is not a dot. */
  lemma {:induction false} JoinLastChar(labels: seq<String>)
    requires |labels| >= 1
    requires forall k :: 0 <= k < |labels| ==> ValidLabel(labels[k])
    ensures var j := Join(labels, '.'); |j| >= 1 && IsHostnameChar(j[|j| - 1])
    decreases |labels|
  {
    assert ValidLabel(labels[|labels| - 1]);
    if |labels| > 1 {
      JoinLastChar(labels[1..]);
    } else {
      assert ValidLabel(labels[0]);
    }
  }

  /** A host name from the scanner's own examples passes, with or without
      the trailing dot. */
  lemma HostnameExampleAccepted()
    ensures IsValidHostname("cloudflare.com")
  {
    var labels := ["cloudflare", "com"];
    assert ValidLabel(labels[0]);
    assert ValidLabel(labels[1]);
    var h := Join(labels, '.');
    assert h == "cloudflare.com";
    ValidHostnameFromLabels(labels, false);
    assert IsValidHostname(h + "");
    assert h + "" == h;
  }

  /** The same name in its fully qualified form, with the trailing dot. */
  lemma HostnameExampleTrailingDotAccepted()
    ensures IsValidHostname("cloudflare.com.")
  {
    var labels := ["cloudflare", "com"];
    assert ValidLabel(labels[0]);
    assert ValidLabel(labels[1]);
    var h := Join(labels, '.');
    assert h == "cloudflare.com";
    ValidHostnameFromLabels(labels, true);
    assert IsValidHostname(h + ".");
    assert h + "." == "cloudflare.com.";
  }

  /** An injection attempt with a space, quotes and markup is refused. */
  lemma HostnameExampleMarkupRejected()
    ensures !IsValidHostname("bad host!!\">AAAA")
  {
    var bad := "bad host!!\">AAAA";
    assert bad[3] == ' ';
    ForeignCharRejected(bad, 3);
  }

  /** A single character other than a letter, digit, hyphen or dot makes a
      host name invalid. */
  lemma ForeignCharRejected(host: String, i: int)
    requires 0 <= i < |host| && host[i] != '.' && !IsHostnameChar(host[i])
    ensures !IsValidHostname(host)
  {
    if IsValidHostname(host) {
      ValidHostnameShape(host);
    }
  }

  /** An empty label between two dots is refused. */
  lemma HostnameExampleEmptyLabelRejected()
    ensures !IsValidHostname("a..com")
  {
    SplitNoSep("com", '.');
    assert ".com"[1..] == "com" && "..com"[1..] == ".com" && "a..com"[1..] == "..com";
    assert Split(".com", '.') == ["", "com"];
    assert Split("..com", '.') == ["", "", "com"];
    assert Split("a..com", '.') == [['a'] + ""] + ["", "com"];
    assert !HasSuffix("a..com", ".");
    assert !ValidLabel(Labels("a..com")[1]);
  }

  /** A label with a leading hyphen is refused, and so is the empty name. */
  lemma HostnameExampleHyphenRejected()
    ensures !IsValidHostname("-a.com")
    ensures !IsValidHostname("")
  {
    if IsValidHostname("-a.com") {
      ValidHostnameShape("-a.com");
    }
  }

  // ---------------------------------------------------------- normalizeURL

  /** The input with `https://` put in front unless it already starts with
      `http://` or `https://`. */
  function WithScheme(raw: String): (s: String)
    ensures HasPrefix(s, "http://") || HasPrefix(s, "https://")
    ensures HasPrefix(raw, "http://") || HasPrefix(raw, "https://") ==> s == raw
    ensures !(HasPrefix(raw, "http://") || HasPrefix(raw, "https://")) ==> s == "https://" + raw
  {
    if HasPrefix(raw, "http://") || HasPrefix(raw, "https://") then raw else "https://" + raw
  }

  /** Adding the scheme twice changes nothing more than adding it once. */
  lemma WithSchemeIdempotent(raw: String)
    ensures WithScheme(WithScheme(raw)) == WithScheme(raw)
  {
  }

  /** The host name is acceptable as a scan target: not `localhost` in any
      letter case, and either an IP literal or a valid DNS name. */
  predicate AcceptableHost(hostname: String, isIP: String -> bool) {
    hostname != "" && !EqualFold(hostname, "localhost")
    && (isIP(hostname) || IsValidHostname(hostname))
  }

  /** `normalizeURL`: the URL string to scan, or why the target is refused. */
  function NormalizeURL(raw: String, env: Env): (r: Result<String, String>)
    ensures r.Success? ==>
      env.parse(WithScheme(raw)).Success?
      && var u := env.parse(WithScheme(raw)).value;
      u.host != "" && AcceptableHost(u.hostname, env.isIP)
      && r.value == UrlString(if u.scheme == "" then u.(scheme := "https") else u)
    ensures r.Failure? ==>
      env.parse(WithScheme(raw)).Failure?
      || var u := env.parse(WithScheme(raw)).value;
      u.host == "" || !AcceptableHost(u.hostname, env.isIP)
  {
    match env.parse(WithScheme(raw))
    case Failure(e) => Failure(e)
    case Success(u0) =>
      var u := if u0.scheme == "" then u0.(scheme := "https") else u0;
      if u.host == "" then Failure("missing host in URL")
      else if u.hostname == "" then Failure("missing host in URL")
      else if EqualFold(u.hostname, "localhost") then Failure("localhost is not allowed as a scan target")
      else if !env.isIP(u.hostname) && !IsValidHostname(u.hostname) then Failure("invalid domain name in URL")
      else Success(UrlString(u))
  }

  /** `localhost` is refused in every spelling, IP literal or not. */
  lemma LocalhostRejected(raw: String, env: Env)
    requires env.parse(WithScheme(raw)).Success?
    requires EqualFold(env.parse(WithScheme(raw)).value.hostname, "localhost")
    ensures NormalizeURL(raw, env) == Failure("localhost is not allowed as a scan target")
               || NormalizeURL(raw, env) == Failure("missing host in URL")
  {
  }

  /** An IP literal skips the label rules; any other host name must pass them. */
  lemma IpLiteralSkipsLabelRules(raw: String, env: Env)
    requires env.parse(WithScheme(raw)).Success?
    requires var u := env.parse(WithScheme(raw)).value;
      u.host != "" && u.hostname != "" && !EqualFold(u.hostname, "localhost")
    ensures var u := env.parse(WithScheme(raw)).value;
      NormalizeURL(raw, env).Success? <==> env.isIP(u.hostname) || IsValidHostname(u.hostname)
  {
  }

  // ------------------------------------------------------- classification

  /** `formatHTTP10Error`: a refused TCP connection reads as a good outcome;
      the message is searched as a fallback for platforms whose error type
      differs. */
  function FormatHttp10Error(err: ProbeError): String {
    if err.kind == ConnectionRefused || Contains(ToLower(err.message), "connection refused")
    then "not supported (good) - TCP connection refused"
    else "not supported (or probe failed): " + err.message
  }

  datatype Status = Supported | ProbeFailed | NotSupported

  /** `statusEmoji`, as one of three tokens: supported wins over error. */
  function StatusEmoji(vr: VersionResult): (s: Status)
    ensures s == Supported <==> vr.supported
    ensures s == ProbeFailed <==> !vr.supported && vr.error
    ensures s == NotSupported <==> !vr.supported && !vr.error
  {
    if vr.supported then Supported else if vr.error then ProbeFailed else NotSupported
  }

  /** The TLS version name recorded from the HTTP/2 connection. */
  function TlsVersionName(code: int): String {
    if code == 0x0304 then "TLS 1.3"
    else if code == 0x0303 then "TLS 1.2"
    else if code == 0x0302 then "TLS 1.1"
    else if code == 0x0301 then "TLS 1.0"
    else ""
  }

  const H3NotSupportedDetail := "not supported \U{2013} enable HTTP/3 to offer a more secure option."

  /** The HTTP/1.0 probe: any HTTP/1.x answer counts as support. */
  function ClassifyHttp10(o: Outcome): VersionResult {
    match o
    case BuildFailed(m) => VersionResult("HTTP/1.0", false, "request build failed", m, true)
    case Failed(e) => VersionResult("HTTP/1.0", false, FormatHttp10Error(e), e.message, true)
    case Response(major, minor, proto, _) =>
      if major == 1 then
        VersionResult("HTTP/1.0", true,
          if minor == 0 then "supported" else "server upgraded HTTP/1.0 request to " + proto + " (good)", "", false)
      else VersionResult("HTTP/1.0", false, "server replied with " + proto, "", false)
  }

  /** The HTTP/1.1 probe: only an exact 1.1 answer counts. */
  function ClassifyHttp11(o: Outcome): VersionResult {
    match o
    case BuildFailed(m) => VersionResult("HTTP/1.1", false, "request build failed", m, true)
    case Failed(e) => VersionResult("HTTP/1.1", false, "not supported (or probe failed): " + e.message, e.message, true)
    case Response(major, minor, proto, _) =>
      if major == 1 && minor == 1 then VersionResult("HTTP/1.1", true, "supported", "", false)
      else VersionResult("HTTP/1.1", false, "server replied with " + proto, "", false)
  }

  /** The HTTP/2 probe (`Client.Get` reports a request it cannot build as an
      ordinary error). */
  function ClassifyHttp2(o: Outcome): VersionResult {
    match o
    case BuildFailed(m) => VersionResult("HTTP/2.0", false, "not supported (or probe failed): " + m, m, true)
    case Failed(e) => VersionResult("HTTP/2.0", false, "not supported (or probe failed): " + e.message, e.message, true)
    case Response(major, _, proto, _) =>
      if major == 2 then VersionResult("HTTP/2.0", true, "supported", "", false)
      else VersionResult("HTTP/2.0", false, "server replied with " + proto, "", false)
  }

  /** The HTTP/3 probe: a failed attempt reads as plain "not supported"; only a
      request that cannot be built is an error. */
  function ClassifyHttp3(o: Outcome): VersionResult {
    match o
    case BuildFailed(m) => VersionResult("HTTP/3.0", false, "request build failed", m, true)
    case Failed(e) => VersionResult("HTTP/3.0", false, H3NotSupportedDetail, e.message, false)
    case Response(major, _, proto, _) =>
      if major == 3 then VersionResult("HTTP/3.0", true, "supported", "", false)
      else VersionResult("HTTP/3.0", false, "server replied with " + proto, "", false)
  }

  /** The TLS version and ALPN evidence, taken from the HTTP/2 probe alone. */
  function TlsEvidence(o: Outcome): (String, String) {
    if o.Response? && o.tls.Some? then (TlsVersionName(o.tls.value.version), o.tls.value.negotiatedProtocol)
    else ("", "")
  }

  /** `markIfUnresolved`: the probe's client saw DNS "no such host". */
  predicate SawNoSuchHost(o: Outcome) {
    o.Failed? && o.err.kind == DnsNotFound
  }

  // -------------------------------------------------------------- runChecks

  /** The sentinel for a target refused before any probe. */
  function InvalidResult(target: String, detail: String): CheckResult {
    CheckResult(target, "", "", [VersionResult("error", false, detail, "", true)], 0, "", "", "", false)
  }

  /** The port probed: the override, else the URL's, else the scheme's default. */
  function ResolvePort(overridePort: String, u: Url): (port: String)
    ensures port != ""
    ensures overridePort != "" ==> port == overridePort
    ensures overridePort == "" && u.port != "" ==> port == u.port
    ensures overridePort == "" && u.port == "" ==> port == (if u.scheme == "http" then "80" else "443")
  {
    if overridePort != "" then overridePort
    else if u.port != "" then u.port
    else if u.scheme == "http" then "80"
    else "443"
  }

  /** `net.JoinHostPort`: brackets a host that holds a colon. */
  function JoinHostPort(host: String, port: String): String {
    if ':' in host then "[" + host + "]:" + port else host + ":" + port
  }

  /** The host put in front of the probed port, as check.go:211-214 picks it:
      the host `SplitHostPort` finds, or else the whole authority. */
  function ProbeHostAsWritten(u: Url): String {
    match u.hostPart
    case Some(h) => h
    case None => u.host
  }

  /** The host put in front of the probed port: the host `SplitHostPort`
      finds, or else the URL's host name. */
  function ProbeHost(u: Url): (h: String)
    ensures u.hostPart.None? ==> h == u.hostname
  {
    match u.hostPart
    case Some(h) => h
    case None => u.hostname
  }

  /** As written, an IPv6 literal without a port gets bracketed twice: the
      authority `[2001:db8::1]` has no port, so `SplitHostPort` fails, the
      bracketed authority is taken as the host, and `JoinHostPort` brackets
      it again. */
  lemma Ipv6AuthorityDoubleBracketed()
    ensures var u := Url("https", "", "[2001:db8::1]", "2001:db8::1", "", None, "");
      UrlString(u.(host := JoinHostPort(ProbeHostAsWritten(u), ResolvePort("", u))))
        == "https://[[2001:db8::1]]:443"
  {
    var u := Url("https", "", "[2001:db8::1]", "2001:db8::1", "", None, "");
    var h := ProbeHostAsWritten(u);
    assert h == "[2001:db8::1]";
    assert h[5] == ':';
    assert ResolvePort("", u) == "443";
    var j := JoinHostPort(h, "443");
    assert j == "[" + h + "]:" + "443";
    assert UrlString(u.(host := j)) == "https" + "://" + "" + j + "";
    DoubleBracketedText();
  }

  /** The literal concatenation behind the example, kept apart so that its
      sequence reasoning does not mix with the URL record's. */
  lemma DoubleBracketedText()
    ensures "https" + "://" + "" + ("[" + "[2001:db8::1]" + "]:" + "443") + "" == "https://[[2001:db8::1]]:443"
  {
  }

  /** With the host name as fallback, a host name with colons (an IPv6
      literal) gets exactly one pair of brackets, and any other host name
      none. */
  lemma ProbeHostBracketsOnce(u: Url, port: String)
    requires u.hostPart.None?
    ensures ':' in u.hostname ==> JoinHostPort(ProbeHost(u), port) == "[" + u.hostname + "]:" + port
    ensures ':' !in u.hostname ==> JoinHostPort(ProbeHost(u), port) == u.hostname + ":" + port
  {
  }

  /** The URL every probe but HTTP/1.0 uses: the parsed URL with the probed
      port made explicit. */
  function UrlWithPort(u: Url, port: String): String {
    var host := ProbeHost(u);
    if host != "" then UrlString(u.(host := JoinHostPort(host, port))) else UrlString(u)
  }

  /** The result URL, and with it the HTTP/1.1, HTTP/2 and HTTP/3 probes,
      keeps the target's user information in front of the host, as
      `u.String()` prints it; only the host gets the explicit port. */
  lemma {:induction false} UrlWithPortKeepsUserinfo(u: Url, port: String)
    requires ProbeHost(u) != ""
    ensures UrlWithPort(u, port) == u.scheme + "://" + u.userinfo + JoinHostPort(ProbeHost(u), port) + u.rest
    ensures HasPrefix(UrlWithPort(u, port), u.scheme + "://" + u.userinfo)
  {
    var p := u.scheme + "://" + u.userinfo;
    var w := UrlWithPort(u, port);
    assert w == p + (JoinHostPort(ProbeHost(u), port) + u.rest);
    assert w[..|p|] == p;
  }

  /** The port of the HTTP/1.0 probe: the override, else 80. */
  function Http10Port(overridePort: String): String {
    if overridePort != "" then overridePort else "80"
  }

  /** The URL of the HTTP/1.0 probe: always plain `http://` to the host. */
  function Http10Url(u: Url, overridePort: String): String {
    var host := ProbeHost(u);
    if host != "" then "http://" + JoinHostPort(host, Http10Port(overridePort))
    else UrlWithPort(u, ResolvePort(overridePort, u))
  }

  /** The four probe requests in their fixed order. */
  function ProbeRequests(u: Url, overridePort: String): (reqs: seq<Request>)
    ensures |reqs| == 4
  {
    var url := UrlWithPort(u, ResolvePort(overridePort, u));
    [Request(Http10, Http10Url(u, overridePort)), Request(Http11, url), Request(Http2, url), Request(Http3, url)]
  }

  /** The result of probing a parsed, accepted URL. */
  function Probe(target: String, overridePort: String, u: Url, net: Request -> Outcome): CheckResult {
    var reqs := ProbeRequests(u, overridePort);
    var o10, o11, o2, o3 := net(reqs[0]), net(reqs[1]), net(reqs[2]), net(reqs[3]);
    var v10, v11, v2, v3 := ClassifyHttp10(o10), ClassifyHttp11(o11), ClassifyHttp2(o2), ClassifyHttp3(o3);
    var (tlsProto, alpn) := TlsEvidence(o2);
    var g := Grade.ComputeMinimalGrade(v3.supported, v2.supported, tlsProto);
    CheckResult(target, UrlWithPort(u, ResolvePort(overridePort, u)), ResolvePort(overridePort, u),
      [v10, v11, v2, v3], g.score, g.grade, alpn, tlsProto,
      SawNoSuchHost(o10) || SawNoSuchHost(o11) || SawNoSuchHost(o2) || SawNoSuchHost(o3))
  }

  /** `runChecks` as a value: the result for a target and the probe requests
      it sends (none for a refused target). */
  function CheckOf(target: String, overridePort: String, env: Env): (CheckResult, seq<Request>) {
    match NormalizeURL(target, env)
    case Failure(e) => (InvalidResult(target, "invalid URL: " + e), [])
    case Success(norm) =>
      match env.parse(norm)
      case Failure(e) => (InvalidResult(target, "invalid URL after normalization: " + e), [])
      case Success(u) => (Probe(target, overridePort, u, env.net), ProbeRequests(u, overridePort))
  }

  /** `runChecks`: validates the target, probes the four versions into fixed
      slots and grades the result. */
  method RunChecks(target: String, overridePort: String, env: Env) returns (res: CheckResult, requests: seq<Request>)
    ensures (res, requests) == CheckOf(target, overridePort, env)
  {
    var norm := NormalizeURL(target, env);
    if norm.Failure? {
      res := InvalidResult(target, "invalid URL: " + norm.error);
      requests := [];
      return;
    }
    var parsed := env.parse(norm.value);
    if parsed.Failure? {
      res := InvalidResult(target, "invalid URL after normalization: " + parsed.error);
      requests := [];
      return;
    }
    res, requests := ProbeTarget(target, overridePort, parsed.value, env.net);
  }

  /** The probing half of `runChecks`: the four requests in their fixed
      slots, then the probes, the TLS evidence and the grade. */
  method ProbeTarget(target: String, overridePort: String, u: Url, net: Request -> Outcome)
    returns (res: CheckResult, requests: seq<Request>)
    ensures res == Probe(target, overridePort, u, net)
    ensures requests == ProbeRequests(u, overridePort)
  {
    var port := ResolvePort(overridePort, u);
    var urlWithPort := UrlWithPort(u, port);
    var http10Url := Http10Url(u, overridePort);
    requests := [Request(Http10, http10Url), Request(Http11, urlWithPort), Request(Http2, urlWithPort), Request(Http3, urlWithPort)];
    var results, hasH2, hasH3, tlsProto, alpn, unresolved := ProbeVersions(requests, net);
    var g := Grade.ComputeMinimalGrade(hasH3, hasH2, tlsProto);
    res := CheckResult(target, urlWithPort, port, results, g.score, g.grade, alpn, tlsProto, unresolved);
  }

  /** The four probes of `runChecks`, each classified into its slot, with
      the support flags for grading, the TLS evidence of the HTTP/2 probe and
      whether any probe met "no such host". */
  method ProbeVersions(requests: seq<Request>, net: Request -> Outcome)
    returns (results: seq<VersionResult>, hasH2: bool, hasH3: bool, tlsProto: String, alpn: String, unresolved: bool)
    requires |requests| == 4
    ensures results == [ClassifyHttp10(net(requests[0])), ClassifyHttp11(net(requests[1])),
                        ClassifyHttp2(net(requests[2])), ClassifyHttp3(net(requests[3]))]
    ensures hasH2 == results[2].supported && hasH3 == results[3].supported
    ensures (tlsProto, alpn) == TlsEvidence(net(requests[2]))
    ensures unresolved == (SawNoSuchHost(net(requests[0])) || SawNoSuchHost(net(requests[1]))
                           || SawNoSuchHost(net(requests[2])) || SawNoSuchHost(net(requests[3])))
  {
    var slots := new VersionResult[4];
    hasH2, hasH3 := false, false;
    tlsProto, alpn := "", "";
    unresolved := false;

    var o10 := net(requests[0]);
    slots[0] := ClassifyHttp10(o10);
    if SawNoSuchHost(o10) { unresolved := true; }

    var o11 := net(requests[1]);
    slots[1] := ClassifyHttp11(o11);
    if SawNoSuchHost(o11) { unresolved := true; }

    var o2 := net(requests[2]);
    slots[2] := ClassifyHttp2(o2);
    if o2.Response? && o2.tls.Some? {
      tlsProto := TlsVersionName(o2.tls.value.version);
      alpn := o2.tls.value.negotiatedProtocol;
    }
    if slots[2].supported { hasH2 := true; }
    if SawNoSuchHost(o2) { unresolved := true; }

    var o3 := net(requests[3]);
    slots[3] := ClassifyHttp3(o3);
    if slots[3].supported { hasH3 := true; }
    if SawNoSuchHost(o3) { unresolved := true; }

    results := slots[..];
    assert results == [slots[0], slots[1], slots[2], slots[3]];
  }

  // ------------------------------------------------- properties of runChecks

  /** A target refused by `normalizeURL` or by the parse that follows it
      yields the one sentinel result, ungraded, and no probe is sent. */
  lemma RefusedTargetSentinel(target: String, overridePort: String, env: Env)
    requires NormalizeURL(target, env).Failure? || env.parse(NormalizeURL(target, env).value).Failure?
    ensures var (res, reqs) := CheckOf(target, overridePort, env);
      reqs == [] && |res.results| == 1
      && res.results[0].version == "error" && res.results[0].error && !res.results[0].supported
      && res.score == 0 && res.grade == "" && res.target == target
  {
  }

  /** An accepted target is probed four times, HTTP/1.0 always over plain
      `http://` on the override port or 80, the others on the resolved port,
      and its four results sit in the fixed version order. */
  lemma AcceptedTargetShape(target: String, overridePort: String, env: Env)
    requires NormalizeURL(target, env).Success?
    requires env.parse(NormalizeURL(target, env).value).Success?
    ensures var u := env.parse(NormalizeURL(target, env).value).value;
      var (res, reqs) := CheckOf(target, overridePort, env);
      |reqs| == 4 && |res.results| == 4
      && res.results[0].version == "HTTP/1.0" && res.results[1].version == "HTTP/1.1"
      && res.results[2].version == "HTTP/2.0" && res.results[3].version == "HTTP/3.0"
      && res.port == ResolvePort(overridePort, u)
      && reqs[0].protocol == Http10 && reqs[1].protocol == Http11
      && reqs[2].protocol == Http2 && reqs[3].protocol == Http3
      && (ProbeHost(u) != "" ==> reqs[0].url == "http://" + JoinHostPort(ProbeHost(u), Http10Port(overridePort)))
      && reqs[1].url == res.url && reqs[2].url == res.url && reqs[3].url == res.url
  {
    var u := env.parse(NormalizeURL(target, env).value).value;
    assert CheckOf(target, overridePort, env) == (Probe(target, overridePort, u, env.net), ProbeRequests(u, overridePort));
  }

  /** The grade of an accepted target is the grading of the HTTP/3 and HTTP/2
      findings and the TLS version of the HTTP/2 probe; TLS version and ALPN
      come from that probe alone. */
  lemma GradeFromProbes(target: String, overridePort: String, env: Env)
    requires NormalizeURL(target, env).Success?
    requires env.parse(NormalizeURL(target, env).value).Success?
    ensures var (res, reqs) := CheckOf(target, overridePort, env);
      var g := Grade.ComputeMinimalGrade(res.results[3].supported, res.results[2].supported, res.tlsVersion);
      res.score == g.score && res.grade == g.grade
      && (res.tlsVersion, res.alpn) == TlsEvidence(env.net(reqs[2]))
  {
  }

  /** Support per probe: HTTP/1.0 on any HTTP/1.x answer, HTTP/1.1 only on an
      exact 1.1 answer, HTTP/2 and HTTP/3 on their major version. */
  lemma SupportRules(o: Outcome)
    ensures ClassifyHttp10(o).supported <==> o.Response? && o.protoMajor == 1
    ensures ClassifyHttp10(o).supported ==> (ClassifyHttp10(o).detail == "supported" <==> o.protoMinor == 0)
    ensures ClassifyHttp11(o).supported <==> o.Response? && o.protoMajor == 1 && o.protoMinor == 1
    ensures ClassifyHttp2(o).supported <==> o.Response? && o.protoMajor == 2
    ensures ClassifyHttp3(o).supported <==> o.Response? && o.protoMajor == 3
  {
    if o.Response? && o.protoMajor == 1 && o.protoMinor != 0 {
      var d := ClassifyHttp10(o).detail;
      assert d == "server upgraded HTTP/1.0 request to " + o.proto + " (good)";
      assert d[1] == 'e';
    }
  }

  /** Error flags per probe: a transport error is an error for HTTP/1.0, 1.1
      and 2 and never for HTTP/3; a refused connection reads as a good
      outcome on HTTP/1.0; no result is both supported and an error. */
  lemma ErrorRules(o: Outcome)
    ensures o.Failed? ==> ClassifyHttp10(o).error && !ClassifyHttp10(o).supported
    ensures o.Failed? ==> ClassifyHttp11(o).error && !ClassifyHttp11(o).supported
    ensures o.Failed? ==> ClassifyHttp2(o).error && !ClassifyHttp2(o).supported
    ensures o.Failed? ==> !ClassifyHttp3(o).error && !ClassifyHttp3(o).supported
    ensures o.Failed? && o.err.kind == ConnectionRefused ==>
      ClassifyHttp10(o).detail == "not supported (good) - TCP connection refused"
    ensures !(ClassifyHttp10(o).supported && ClassifyHttp10(o).error)
    ensures !(ClassifyHttp11(o).supported && ClassifyHttp11(o).error)
    ensures !(ClassifyHttp2(o).supported && ClassifyHttp2(o).error)
    ensures !(ClassifyHttp3(o).supported && ClassifyHttp3(o).error)
  {
  }

  /** The unresolved flag is set exactly when some probe saw "no such host". */
  lemma UnresolvedIff(target: String, overridePort: String, env: Env)
    ensures var (res, reqs) := CheckOf(target, overridePort, env);
      res.unresolved <==> exists k :: 0 <= k < |reqs| && SawNoSuchHost(env.net(reqs[k]))
  {
    var (res, reqs) := CheckOf(target, overridePort, env);
    if res.unresolved {
      var k :| 0 <= k < 4 && SawNoSuchHost(env.net(reqs[k]));
    }
  }

  /** For an accepted target the grade is A exactly when HTTP/3 is supported
      and F exactly when neither HTTP/2 nor HTTP/3 is. */
  lemma GradeMatchesResults(target: String, overridePort: String, env: Env)
    requires NormalizeURL(target, env).Success?
    requires env.parse(NormalizeURL(target, env).value).Success?
    ensures var res := CheckOf(target, overridePort, env).0;
      (res.grade == "A" <==> res.results[3].supported)
      && (res.grade == "F" <==> !res.results[3].supported && !res.results[2].supported)
  {
    var res := CheckOf(target, overridePort, env).0;
    Grade.GradeMeaning(res.results[3].supported, res.results[2].supported, res.tlsVersion);
  }

  // ------------------------------------------------------ runChecksMulti

  /** `workerCountForTargets`: at most 64 workers, at most one per target,
      at least one when there is any target. */
  method WorkerCountForTargets(n: int, numCpu: int) returns (wc: int)
    ensures n <= 0 ==> wc == 0
    ensures n > 0 ==> 1 <= wc <= n && wc <= 64
    ensures n > 0 && 1 <= numCpu * 4 <= 64 && numCpu * 4 <= n ==> wc == numCpu * 4
    ensures n > 0 && numCpu * 4 > 64 && n >= 64 ==> wc == 64
    ensures n > 0 && n < numCpu * 4 && n < 64 ==> wc == n
    ensures n > 0 && numCpu <= 0 ==> wc == 1
  {
    if n <= 0 {
      return 0;
    }
    var maxWorkers := 64;
    wc := numCpu * 4;
    if wc > maxWorkers {
      wc := maxWorkers;
    }
    if wc > n {
      wc := n;
    }
    if wc < 1 {
      wc := 1;
    }
  }

  /** `runChecksMulti`: one result per target, in input order. The worker
      pool is run here as one sequential loop over the job indices. */
  method RunChecksMulti(targets: seq<String>, overridePort: String, env: Env, numCpu: int) returns (out: seq<CheckResult>)
    ensures |out| == |targets|
    ensures forall i :: 0 <= i < |targets| ==> out[i] == CheckOf(targets[i], overridePort, env).0
  {
    var n := |targets|;
    var results := new CheckResult[n];
    if n == 0 {
      return results[..];
    }
    // The pool size; the sequential loop below stands for all its workers.
    var workerCount := WorkerCountForTargets(n, numCpu);
    var idx := 0;
    while idx < n
      invariant 0 <= idx <= n
      invariant forall i :: 0 <= i < idx ==> results[i] == CheckOf(targets[i], overridePort, env).0
    {
      var res, _ := RunChecks(targets[idx], overridePort, env);
      results[idx] := res;
      idx := idx + 1;
    }
    out := results[..];
  }
}
