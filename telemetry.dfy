/**
 * `telemetry.py`: the configuration side of the Uptrace set-up. It covers reading a setting,
 * checking the DSN, deriving the OTLP endpoints, choosing the protocol, normalising the
 * excluded FastAPI spans, naming outbound spans, building the request target and the
 * set-up's once-only flag. Python's `urlsplit`, `hostname`, `port` and `parse_qs` are
 * written out for the DSNs they read.
 */
module Telemetry {
  import opened Wrappers
  import opened PyStr

  // ---------------------------------------------------------------------------
  // urlsplit, hostname, port and parse_qs

  /** `scheme_chars`: ASCII letters, digits, `+`, `-` and `.`. */
  predicate SchemeChar(c: char) {
    ('a' <= c <= 'z') || ('A' <= c <= 'Z') || ('0' <= c <= '9') || c == '+' || c == '-' || c == '.'
  }

  predicate AsciiAlpha(c: char) {
    ('a' <= c <= 'z') || ('A' <= c <= 'Z')
  }

  /** The index of the `:` that ends a scheme: the first `:`, after an ASCII letter and scheme characters only. */
  function SchemeEnd(url: string): (r: Option<nat>)
    ensures r.Some? ==> 0 < r.value < |url| && url[r.value] == ':' && ':' !in url[..r.value]
    ensures r.Some? ==> forall j :: 0 <= j < r.value ==> SchemeChar(url[j])
  {
    var i := Find(url, ':');
    if i > 0 && AsciiAlpha(url[0]) && forall j :: 0 <= j < i ==> SchemeChar(url[j]) then Some(i) else None
  }

  /** The characters that end a network location. */
  predicate NetlocDelimiter(c: char) {
    c == '/' || c == '?' || c == '#'
  }

  /** The index of the first `/`, `?` or `#`, or the length of `s`. */
  function FirstDelimiter(s: string): (r: nat)
    ensures r <= |s|
    ensures forall j :: 0 <= j < r ==> !NetlocDelimiter(s[j])
    ensures r < |s| ==> NetlocDelimiter(s[r])
  {
    if s == [] || NetlocDelimiter(s[0]) then 0 else 1 + FirstDelimiter(s[1..])
  }

  /** The five parts `urlsplit` returns. */
  datatype SplitUrl = SplitUrl(scheme: string, netloc: string, path: string, query: string, fragment: string)

  /** The text after the scheme's `:`, or all of `url` when it has no scheme. */
  function AfterScheme(url: string): string {
    match SchemeEnd(url)
    case Some(i) => url[i + 1..]
    case None => url
  }

  /** `rest[:2] == '//'`. */
  predicate StartsWithSlashes(rest: string) {
    |rest| >= 2 && rest[0] == '/' && rest[1] == '/'
  }

  /** The network location: what follows a leading `//` up to the first `/`, `?` or `#`. */
  function Netloc(rest: string): (r: string)
    ensures forall j :: 0 <= j < |r| ==> !NetlocDelimiter(r[j])
  {
    if StartsWithSlashes(rest) then rest[2..][..FirstDelimiter(rest[2..])] else ""
  }

  /** What follows the network location. */
  function AfterNetloc(rest: string): string {
    if StartsWithSlashes(rest) then rest[2..][FirstDelimiter(rest[2..])..] else rest
  }

  /** `s.split(c, 1)` when `c` is in `s`; `(s, "")` otherwise. */
  function SplitOnce(s: string, c: char): (r: (string, string))
    ensures |r.0| <= |s| && r.0 == s[..|r.0|] && c !in r.0
    ensures c in s ==> |r.0| < |s| && r.1 == s[|r.0| + 1..]
    ensures c !in s ==> r == (s, "")
  {
    if c in s then (s[..Find(s, c)], s[Find(s, c) + 1..]) else (s, "")
  }

  /** The scheme, lower-cased, or empty. */
  function SchemeOf(url: string): string {
    match SchemeEnd(url)
    case Some(i) => Lower(url[..i])
    case None => ""
  }

  /** The path and what follows it, before the fragment is split off. */
  function TailOf(url: string): string {
    SplitOnce(AfterNetloc(AfterScheme(url)), '#').0
  }

  /** `urlsplit(url)`. */
  function UrlSplit(url: string): SplitUrl {
    SplitUrl(SchemeOf(url), Netloc(AfterScheme(url)), SplitOnce(TailOf(url), '?').0,
             SplitOnce(TailOf(url), '?').1, SplitOnce(AfterNetloc(AfterScheme(url)), '#').1)
  }

  /** Text free of user info, query and fragment markers. */
  predicate Clean(s: string) {
    forall j :: 0 <= j < |s| ==> s[j] != '@' && s[j] != '?' && s[j] != '#'
  }

  lemma CleanConcat(a: string, b: string)
    requires Clean(a) && Clean(b)
    ensures Clean(a + b)
  {
    assert forall j :: |a| <= j < |a + b| ==> (a + b)[j] == b[j - |a|];
  }

  /** The fixed pieces of the endpoints are clean. */
  lemma CleanPieces()
    ensures Clean("://") && Clean(":") && Clean("%") && Clean("/v1/traces")
  {
  }

  lemma CleanSlice(s: string, i: nat, j: nat)
    requires Clean(s) && i <= j <= |s|
    ensures Clean(s[i..j])
  {
    assert forall k :: 0 <= k < j - i ==> s[i..j][k] == s[i + k];
  }

  lemma CleanLower(s: string)
    requires Clean(s)
    ensures Clean(Lower(s))
  {
  }

  /** The host and port text: the network location after its last `@`. */
  function HostInfo(netloc: string): (r: string)
    ensures '@' !in r
    ensures |r| <= |netloc| && r == netloc[|netloc| - |r|..]
    ensures |r| == |netloc| || netloc[|netloc| - |r| - 1] == '@'
  {
    netloc[RFind(netloc, '@') + 1..]
  }

  /** `hostname`: the host part lower-cased up to a `%` zone, or `None` when empty. */
  function Hostname(netloc: string): (r: Option<string>)
    ensures r.Some? ==> r.value != [] && netloc != []
  {
    var host := SplitOnce(HostInfo(netloc), ':').0;
    if host == [] then None
    else
      var (name, zone) := SplitOnce(host, '%');
      if '%' in host then Some(Lower(name) + "%" + zone) else Some(Lower(host))
  }

  /** The host and port text of a network location without `/`, `?` or `#` holds no `@`, `?` or `#`. */
  lemma HostInfoIsClean(netloc: string)
    requires forall j :: 0 <= j < |netloc| ==> !NetlocDelimiter(netloc[j])
    ensures Clean(HostInfo(netloc))
  {
    var info := HostInfo(netloc);
    var k := |netloc| - |info|;
    forall j | 0 <= j < |info|
      ensures info[j] != '@' && info[j] != '?' && info[j] != '#'
    {
      assert info[j] == netloc[k + j];
    }
  }

  /** Lower-casing up to a `%` zone keeps text clean. */
  lemma HostLowerIsClean(host: string)
    requires Clean(host)
    ensures '%' in host ==> Clean(Lower(SplitOnce(host, '%').0) + "%" + SplitOnce(host, '%').1)
    ensures Clean(Lower(host))
  {
    CleanLower(host);
    if '%' in host {
      var (name, zone) := SplitOnce(host, '%');
      CleanSlice(host, 0, |name|);
      CleanSlice(host, |name| + 1, |host|);
      CleanLower(name);
      CleanPieces();
      CleanConcat(Lower(name), "%");
      CleanConcat(Lower(name) + "%", zone);
    }
  }

  /** The host name of a network location without `/`, `?` or `#` holds no `@`, `?` or `#`. */
  lemma HostnameIsClean(netloc: string)
    requires forall j :: 0 <= j < |netloc| ==> !NetlocDelimiter(netloc[j])
    requires Hostname(netloc).Some?
    ensures Clean(Hostname(netloc).value)
  {
    var info := HostInfo(netloc);
    HostInfoIsClean(netloc);
    var host := SplitOnce(info, ':').0;
    CleanSlice(info, 0, |host|);
    HostLowerIsClean(host);
  }

  /** `port`: absent, a number in 0..65535, or a `ValueError` when read. */
  datatype Port = NoPort | PortNumber(n: nat) | BadPort

  function PortOf(netloc: string): (r: Port)
    ensures r.PortNumber? ==> r.n <= 65535
  {
    var text := SplitOnce(HostInfo(netloc), ':').1;
    if text == [] then NoPort
    else if IsDigits(text) && DigitsValue(text) <= 65535 then PortNumber(DigitsValue(text))
    else BadPort
  }

  /**
   * `parse_qs(query).get(name, [None])[0]`: the value of the first `&`-separated field
   * `name=value` whose value is not empty.
   */
  function QueryValue(fields: seq<string>, name: string): (r: Option<string>)
    ensures r.Some? ==> r.value != [] && exists k :: 0 <= k < |fields| && fields[k] == name + "=" + r.value
    ensures r.None? <==> forall k :: 0 <= k < |fields| ==> !IsField(fields[k], name)
  {
    if fields == [] then None
    else if IsField(fields[0], name) then
      var i := Find(fields[0], '=');
      assert fields[0] == fields[0][..i] + "=" + fields[0][i + 1..];
      Some(fields[0][i + 1..])
    else
      var r := QueryValue(fields[1..], name);
      assert forall k :: 1 <= k < |fields| ==> fields[k] == fields[1..][k - 1];
      r
  }

  /** `field` is `name=value` with a non-empty value. */
  predicate IsField(field: string, name: string) {
    '=' in field && field[..Find(field, '=')] == name && Find(field, '=') + 1 < |field|
  }

  /** The `grpc` query value of a DSN's query. */
  function GrpcQueryValue(query: string): Option<string> {
    QueryValue(Split(query, '&'), "grpc")
  }

  // ---------------------------------------------------------------------------
  // _parse_dsn and the endpoints

  const InvalidDsn := "UPTRACE_DSN must be a valid URL."
  /**
   * The refusal of a port that `urlsplit`'s `port` raises on. Python words it "Port could
   * not be cast to integer value" for a port that is not an ASCII number and "Port out of
   * range 0-65535" for a larger one; both only reach the log, so one text stands for both.
   */
  const BadPortText := "Port could not be cast to integer value"

  /** `_parse_dsn`: the split DSN, refused without a scheme or a host name. */
  function ParseDsn(dsn: string): (r: Result<SplitUrl, string>)
    ensures r.Err? ==> r.error == InvalidDsn
  {
    var u := UrlSplit(dsn);
    if u.scheme == [] || Hostname(u.netloc).None? then Err(InvalidDsn) else Ok(u)
  }

  /** `_parse_dsn` refuses exactly the DSNs without a scheme or without a host name, and otherwise returns the split DSN. */
  lemma ParseDsnRejects(dsn: string)
    ensures ParseDsn(dsn).Err? <==> UrlSplit(dsn).scheme == [] || Hostname(UrlSplit(dsn).netloc).None?
    ensures ParseDsn(dsn).Ok? ==> ParseDsn(dsn).value == UrlSplit(dsn)
  {
  }

  /** `scheme://host[:port]`, with the port added only when it is set and not 0. */
  function Origin(u: SplitUrl): Result<string, string>
    requires Hostname(u.netloc).Some?
  {
    if PortOf(u.netloc).BadPort? then Err(BadPortText)
    else Ok(u.scheme + "://" + Hostname(u.netloc).value + PortText(PortOf(u.netloc)))
  }

  /** `:port` for a port that is set and not 0 (`if parsed.port:`), nothing otherwise. */
  function PortText(p: Port): string {
    if p.PortNumber? && p.n != 0 then ":" + NatToString(p.n) else ""
  }

  lemma PortTextIsClean(p: Port)
    ensures Clean(PortText(p))
  {
    if p.PortNumber? && p.n != 0 {
      var digits := NatToString(p.n);
      assert Clean(digits) by {
        assert IsDigits(digits);
      }
      CleanPieces();
      CleanConcat(":", digits);
    }
  }

  /** `_dsn_to_otlp_trace_endpoint`. */
  function TraceEndpoint(dsn: string): Result<string, string> {
    match ParseDsn(dsn)
    case Err(e) => Err(e)
    case Ok(u) =>
      match Origin(u)
      case Err(e) => Err(e)
      case Ok(origin) => Ok(origin + "/v1/traces")
  }

  /** `_dsn_to_otlp_grpc_endpoint`: the `grpc` query value is the port in preference to the DSN's. */
  function GrpcEndpoint(dsn: string): Result<string, string> {
    match ParseDsn(dsn)
    case Err(e) => Err(e)
    case Ok(u) =>
      match GrpcQueryValue(u.query)
      case Some(port) => Ok(u.scheme + "://" + Hostname(u.netloc).value + ":" + port)
      case None => Origin(u)
  }

  /** A DSN accepted by `_parse_dsn` has a scheme followed by `://`. */
  lemma AcceptedDsnHasSchemeAndSlashes(dsn: string)
    requires ParseDsn(dsn).Ok?
    ensures SchemeEnd(dsn).Some?
    ensures SchemeEnd(dsn).value + 2 < |dsn|
    ensures dsn[SchemeEnd(dsn).value + 1] == '/' && dsn[SchemeEnd(dsn).value + 2] == '/'
  {
    assert SchemeOf(dsn) != [];
    var i := SchemeEnd(dsn).value;
    var rest := dsn[i + 1..];
    assert AfterScheme(dsn) == rest;
    assert Netloc(rest) != [];
    assert StartsWithSlashes(rest);
    assert dsn[i + 1] == rest[0] && dsn[i + 2] == rest[1];
  }

  /** Without a `grpc` query value, the trace endpoint is the gRPC endpoint followed by `/v1/traces`. */
  lemma TraceEndpointExtendsGrpc(dsn: string)
    requires ParseDsn(dsn).Ok? ==> GrpcQueryValue(UrlSplit(dsn).query).None?
    ensures TraceEndpoint(dsn).Ok? <==> GrpcEndpoint(dsn).Ok?
    ensures TraceEndpoint(dsn).Ok? ==> TraceEndpoint(dsn).value == GrpcEndpoint(dsn).value + "/v1/traces"
  {
  }

  /** A `grpc` query value always wins over the DSN's own port, even an unreadable one. */
  lemma GrpcQueryWinsOverPort(dsn: string)
    requires ParseDsn(dsn).Ok? && GrpcQueryValue(UrlSplit(dsn).query).Some?
    ensures GrpcEndpoint(dsn).Ok?
    ensures GrpcEndpoint(dsn).value ==
              UrlSplit(dsn).scheme + "://" + Hostname(UrlSplit(dsn).netloc).value + ":" + GrpcQueryValue(UrlSplit(dsn).query).value
  {
  }

  /** A scheme is made of scheme characters only. */
  lemma SchemeIsClean(url: string)
    ensures Clean(SchemeOf(url))
  {
    if SchemeEnd(url).Some? {
      var i := SchemeEnd(url).value;
      assert forall j :: 0 <= j < i ==> url[..i][j] == url[j];
    }
  }

  /** The origin built from a clean scheme and a delimiter-free network location is clean. */
  lemma OriginIsClean(u: SplitUrl)
    requires Clean(u.scheme) && Hostname(u.netloc).Some? && Origin(u).Ok?
    requires forall j :: 0 <= j < |u.netloc| ==> !NetlocDelimiter(u.netloc[j])
    ensures Clean(Origin(u).value)
  {
    var host := Hostname(u.netloc).value;
    HostnameIsClean(u.netloc);
    PortTextIsClean(PortOf(u.netloc));
    CleanPieces();
    CleanConcat(u.scheme, "://");
    CleanConcat(u.scheme + "://", host);
    CleanConcat(u.scheme + "://" + host, PortText(PortOf(u.netloc)));
  }

  /** The trace endpoint keeps no user info, query or fragment of the DSN. */
  lemma TraceEndpointIsClean(dsn: string)
    requires TraceEndpoint(dsn).Ok?
    ensures Clean(TraceEndpoint(dsn).value)
  {
    var u := UrlSplit(dsn);
    SchemeIsClean(dsn);
    OriginIsClean(u);
    CleanPieces();
    CleanConcat(Origin(u).value, "/v1/traces");
  }

  // ---------------------------------------------------------------------------
  // _read_setting

  /**
   * `_read_setting`: the environment value, stripped, when it is not blank; otherwise the
   * `ow_config` value, stripped, when it is not blank; otherwise `default`. `config` is empty
   * when `ow_config` cannot be imported.
   */
  function ReadSetting(env: map<string, string>, config: map<string, string>, key: string,
                       default: Option<string>): Option<string>
  {
    if key in env && Strip(env[key]) != [] then Some(Strip(env[key]))
    else if key in config && Strip(config[key]) != [] then Some(Strip(config[key]))
    else default
  }

  /**
   * A non-blank environment value hides the configuration, which hides the default; a
   * setting is the default only when both are blank or missing.
   */
  lemma ReadSettingPrecedence(env: map<string, string>, config: map<string, string>, key: string, default: Option<string>)
    ensures key in env && Strip(env[key]) != [] ==> ReadSetting(env, config, key, default) == Some(Strip(env[key]))
    ensures (key !in env || Strip(env[key]) == []) && key in config && Strip(config[key]) != [] ==>
              ReadSetting(env, config, key, default) == Some(Strip(config[key]))
    ensures (key !in env || Strip(env[key]) == []) && (key !in config || Strip(config[key]) == []) ==>
              ReadSetting(env, config, key, default) == default
    ensures default.Some? ==> ReadSetting(env, config, key, default).Some?
  {
  }

  /** A setting that is not the default is non-blank text with no surrounding whitespace. */
  lemma ReadSettingIsTrimmed(env: map<string, string>, config: map<string, string>, key: string, default: Option<string>)
    requires ReadSetting(env, config, key, default) != default
    ensures ReadSetting(env, config, key, default).Some?
    ensures var v := ReadSetting(env, config, key, default).value;
            v != [] && Strip(v) == v
  {
    var v := ReadSetting(env, config, key, default).value;
    StripUnpadded(v);
  }

  // ---------------------------------------------------------------------------
  // _parse_fastapi_exclude_spans

  /** A span kind FastAPI's instrumentation may leave out. */
  predicate SpanKind(s: string) {
    s == "receive" || s == "send"
  }

  /** The comma-separated items, stripped and lower-cased, blank ones dropped. */
  function NormalizedItems(parts: seq<string>): (r: seq<string>)
    ensures |r| <= |parts|
  {
    if parts == [] then []
    else
      var rest := NormalizedItems(parts[..|parts| - 1]);
      var item := Strip(parts[|parts| - 1]);
      if item != [] then rest + [Lower(item)] else rest
  }

  /** The span kinds among `items`, each once, in the order of first occurrence. */
  function KeptSpans(items: seq<string>): seq<string> {
    if items == [] then []
    else
      var kept := KeptSpans(items[..|items| - 1]);
      var item := items[|items| - 1];
      if SpanKind(item) && item !in kept then kept + [item] else kept
  }

  /** The first index of `x` in `xs`, or `|xs|`. */
  function FirstIndex(xs: seq<string>, x: string): (r: nat)
    ensures r <= |xs| && x !in xs[..r]
    ensures r < |xs| ==> xs[r] == x
  {
    if xs == [] then 0
    else if xs[0] == x then 0
    else
      var r := 1 + FirstIndex(xs[1..], x);
      assert xs[..r] == [xs[0]] + xs[1..][..r - 1];
      r
  }

  /** `KeptSpans` keeps exactly the span kinds found in `items`. */
  lemma {:induction false} KeptSpansMembers(items: seq<string>)
    ensures forall k :: 0 <= k < |KeptSpans(items)| ==> SpanKind(KeptSpans(items)[k])
    ensures forall s :: SpanKind(s) ==> (s in KeptSpans(items) <==> s in items)
  {
    if items != [] {
      var front := items[..|items| - 1];
      KeptSpansMembers(front);
      assert items == front + [items[|items| - 1]];
    }
  }

  /** `KeptSpans` keeps each span kind once. */
  lemma {:induction false} KeptSpansDistinct(items: seq<string>)
    ensures forall j, k :: 0 <= j < k < |KeptSpans(items)| ==> KeptSpans(items)[j] != KeptSpans(items)[k]
  {
    if items != [] {
      KeptSpansDistinct(items[..|items| - 1]);
    }
  }

  /** `KeptSpans` keeps the span kinds in the order in which they first occur. */
  lemma {:induction false} KeptSpansOrdered(items: seq<string>)
    ensures forall j, k :: 0 <= j < k < |KeptSpans(items)| ==>
              FirstIndex(items, KeptSpans(items)[j]) < FirstIndex(items, KeptSpans(items)[k])
  {
    if items != [] {
      var front := items[..|items| - 1];
      var item := items[|items| - 1];
      var kept := KeptSpans(front);
      KeptSpansOrdered(front);
      KeptSpansMembers(front);
      assert items == front + [item];
      FirstIndexOfExtension(front, item);
      assert forall j :: 0 <= j < |kept| ==> kept[j] in front && FirstIndex(front, kept[j]) < |front|;
    }
  }

  /** Appending an item keeps the first index of everything already present. */
  lemma {:induction false} FirstIndexOfExtension(xs: seq<string>, y: string)
    ensures forall x :: x in xs ==> FirstIndex(xs + [y], x) == FirstIndex(xs, x)
    ensures y !in xs ==> FirstIndex(xs + [y], y) == |xs|
  {
    if xs != [] {
      assert (xs + [y])[1..] == xs[1..] + [y];
      FirstIndexOfExtension(xs[1..], y);
    } else {
      assert FirstIndex([y], y) == 0;
    }
  }

  /** `_parse_fastapi_exclude_spans`. */
  method ParseFastapiExcludeSpans(value: Option<string>) returns (r: Option<seq<string>>)
    ensures value.None? ==> r == Some(["receive", "send"])
    ensures r == ExcludeSpans(value)
  {
    if value.None? {
      return Some(["receive", "send"]);
    }
    var allowed := KeepSpanKinds(NormalizedItems(Split(value.value, ',')));
    if allowed == [] {
      return None;
    }
    return Some(allowed);
  }

  /** The loop of `_parse_fastapi_exclude_spans`: each span kind is appended the first time it is seen. */
  method KeepSpanKinds(items: seq<string>) returns (allowed: seq<string>)
    ensures allowed == KeptSpans(items)
  {
    allowed := [];
    for i := 0 to |items|
      invariant allowed == KeptSpans(items[..i])
    {
      assert items[..i + 1][..i] == items[..i];
      var item := items[i];
      if SpanKind(item) && item !in allowed {
        allowed := allowed + [item];
      }
    }
    assert items[..|items|] == items;
  }

  /** Nothing is kept exactly when no item is a span kind, which turns the exclusion off. */
  lemma {:induction false} KeptSpansEmpty(items: seq<string>)
    ensures KeptSpans(items) == [] <==> forall k :: 0 <= k < |items| ==> !SpanKind(items[k])
  {
    if items != [] {
      var front := items[..|items| - 1];
      KeptSpansEmpty(front);
      assert forall k :: 0 <= k < |front| ==> items[k] == front[k];
    }
  }

  // ---------------------------------------------------------------------------
  // Span names and request targets

  /** `_aiohttp_span_name`: the upper-cased method, a space and the URL path, `/` for an empty path. */
  function SpanName(verb: string, path: string): string {
    Upper(verb) + " " + (if path == [] then "/" else path)
  }

  /** The verb part of a span name holds no lower-case ASCII letter, and its path part is never empty. */
  lemma SpanNameParts(verb: string, path: string)
    ensures var r := SpanName(verb, path);
            && |r| > |verb| + 1 && r[|verb|] == ' '
            && (forall j :: 0 <= j < |verb| ==> !('a' <= r[j] <= 'z'))
            && (path != [] ==> r[|verb| + 1..] == path)
            && (path == [] ==> r[|verb| + 1..] == "/")
  {
    var r := SpanName(verb, path);
    assert r[..|verb|] == Upper(verb);
  }

  /** `bytes.decode('latin-1')`: each byte becomes the character with the same code. */
  function Latin1Decode(bytes: seq<bv8>): (r: string)
    ensures |r| == |bytes|
  {
    seq(|bytes|, i requires 0 <= i < |bytes| => (bytes[i] as int) as char)
  }

  /** Latin-1 encoding of text whose characters all lie below 256. */
  function Latin1Encode(s: string): (r: seq<bv8>)
    requires forall i :: 0 <= i < |s| ==> s[i] as int < 256
    ensures |r| == |s|
  {
    seq(|s|, i requires 0 <= i < |s| => (s[i] as int) as bv8)
  }

  lemma Latin1RoundTrip(bytes: seq<bv8>)
    ensures forall i :: 0 <= i < |bytes| ==> Latin1Decode(bytes)[i] as int < 256
    ensures Latin1Encode(Latin1Decode(bytes)) == bytes
  {
  }

  /**
   * The `http.target` of `_fastapi_server_request_hook`: the scope's path (`/` when it has
   * none), followed by `?` and the Latin-1 query string when that is non-empty bytes.
   */
  function RequestTarget(path: Option<string>, queryString: Option<seq<bv8>>): string {
    var p := match path case Some(s) => s case None => "/";
    match queryString
    case Some(q) => if q != [] then p + "?" + Latin1Decode(q) else p
    case None => p
  }

  /** A request target splits back into the path and the query bytes. */
  lemma RequestTargetSplitsBack(path: string, query: seq<bv8>)
    requires query != []
    ensures var t := RequestTarget(Some(path), Some(query));
            && t[..|path|] == path && t[|path|] == '?'
            && (forall i :: |path| < i < |t| ==> t[i] as int < 256)
            && Latin1Encode(t[|path| + 1..]) == query
  {
    var t := RequestTarget(Some(path), Some(query));
    assert t[|path| + 1..] == Latin1Decode(query);
    Latin1RoundTrip(query);
  }

  /** Without a non-empty query the target is the path itself. */
  lemma RequestTargetWithoutQuery(path: Option<string>, queryString: Option<seq<bv8>>)
    requires queryString.None? || queryString.value == []
    ensures RequestTarget(path, queryString) == if path.Some? then path.value else "/"
  {
  }

  // ---------------------------------------------------------------------------
  // setup_uptrace_telemetry

  /** The settings the set-up reads, each through `_read_setting`. */
  datatype Settings = Settings(dsn: Option<string>, protocol: Option<string>, grpcUrl: Option<string>,
                               tracesUrl: Option<string>, excludeSpans: Option<string>)

  function ReadSettings(env: map<string, string>, config: map<string, string>): Settings {
    Settings(ReadSetting(env, config, "UPTRACE_DSN", None),
             ReadSetting(env, config, "UPTRACE_OTLP_PROTOCOL", None),
             ReadSetting(env, config, "UPTRACE_OTLP_GRPC_URL", None),
             ReadSetting(env, config, "UPTRACE_OTLP_TRACES_URL", None),
             ReadSetting(env, config, "UPTRACE_FASTAPI_EXCLUDE_SPANS", Some("receive,send")))
  }

  /** The exporter the set-up builds: its protocol, its endpoint, the DSN sent as `uptrace-dsn` and the excluded spans. */
  datatype Exporter = Exporter(protocol: string, endpoint: string, dsn: string, excludeSpans: Option<seq<string>>)

  /** `(protocol or "").lower().strip()`. */
  function ProtocolSetting(protocol: Option<string>): string {
    Strip(Lower(match protocol case Some(p) => p case None => ""))
  }

  /**
   * The protocol: the `UPTRACE_OTLP_PROTOCOL` setting, or, when it is blank, `grpc` when a
   * gRPC endpoint is set or the DSN has a `grpc` query value, and `http` otherwise.
   */
  function Protocol(s: Settings, dsn: string): Result<string, string> {
    var protocol := ProtocolSetting(s.protocol);
    if protocol != [] then Ok(protocol)
    else
      match ParseDsn(dsn)
      case Err(e) => Err(e)
      case Ok(u) => Ok(if s.grpcUrl.Some? || GrpcQueryValue(u.query).Some? then "grpc" else "http")
  }

  const BadProtocol := "UPTRACE_OTLP_PROTOCOL must be 'http' or 'grpc'."

  /** The excluded span kinds handed to FastAPI's instrumentation. */
  function ExcludeSpans(value: Option<string>): Option<seq<string>> {
    match value
    case None => Some(["receive", "send"])
    case Some(v) =>
      var kept := KeptSpans(NormalizedItems(Split(v, ',')));
      if kept == [] then None else Some(kept)
  }

  /** The endpoint for a protocol: a configured one in preference to the one derived from the DSN. */
  function Endpoint(s: Settings, protocol: string, dsn: string): Result<string, string> {
    if protocol == "grpc" then
      if s.grpcUrl.Some? then Ok(s.grpcUrl.value) else GrpcEndpoint(dsn)
    else if protocol == "http" then
      if s.tracesUrl.Some? then Ok(s.tracesUrl.value) else TraceEndpoint(dsn)
    else Err(BadProtocol)
  }

  /**
   * Everything inside the set-up's `try` that does not touch the OpenTelemetry library: the
   * protocol, then the endpoint. Any error here makes the set-up answer `False`.
   */
  function ExporterFor(s: Settings, dsn: string): (r: Result<Exporter, string>)
    ensures r.Ok? ==> r.value.dsn == dsn && r.value.excludeSpans == ExcludeSpans(s.excludeSpans)
  {
    match Protocol(s, dsn)
    case Err(e) => Err(e)
    case Ok(protocol) =>
      match Endpoint(s, protocol, dsn)
      case Err(e) => Err(e)
      case Ok(endpoint) => Ok(Exporter(protocol, endpoint, dsn, ExcludeSpans(s.excludeSpans)))
  }

  /**
   * With no protocol set, the exporter speaks gRPC exactly when a gRPC endpoint is
   * configured or the DSN has a `grpc` query value, and HTTP otherwise.
   */
  lemma ProtocolInference(s: Settings, dsn: string)
    requires ProtocolSetting(s.protocol) == []
    requires ExporterFor(s, dsn).Ok?
    ensures ExporterFor(s, dsn).value.protocol == "grpc" <==> s.grpcUrl.Some? || GrpcQueryValue(UrlSplit(dsn).query).Some?
    ensures ExporterFor(s, dsn).value.protocol != "grpc" ==> ExporterFor(s, dsn).value.protocol == "http"
  {
  }

  /** A protocol other than `http` and `grpc` makes the set-up fail. */
  lemma UnknownProtocolFails(s: Settings, dsn: string)
    requires ProtocolSetting(s.protocol) !in {"", "http", "grpc"}
    ensures ExporterFor(s, dsn) == Err(BadProtocol)
  {
  }

  /** A configured endpoint is used as it is, whatever the DSN holds; otherwise the DSN's endpoint is. */
  lemma EndpointChoice(s: Settings, dsn: string)
    requires ExporterFor(s, dsn).Ok?
    ensures var e := ExporterFor(s, dsn).value;
            && (e.protocol == "grpc" || e.protocol == "http")
            && (e.protocol == "grpc" ==> if s.grpcUrl.Some? then e.endpoint == s.grpcUrl.value else GrpcEndpoint(dsn) == Ok(e.endpoint))
            && (e.protocol == "http" ==> if s.tracesUrl.Some? then e.endpoint == s.tracesUrl.value else TraceEndpoint(dsn) == Ok(e.endpoint))
  {
    var protocol := Protocol(s, dsn).value;
    assert Endpoint(s, protocol, dsn).Ok?;
  }

  /**
   * The set-up once the flags are clear: no exporter without a DSN, without the
   * OpenTelemetry packages, on a configuration error or when the library wiring fails.
   */
  function Configure(s: Settings, packagesPresent: bool, wiringSucceeds: bool): (r: Result<Exporter, string>)
    ensures r.Ok? ==> s.dsn.Some? && r.value.dsn == s.dsn.value
  {
    if s.dsn.None? then Err("UPTRACE_DSN is not configured")
    else if !packagesPresent then Err("OpenTelemetry packages are missing")
    else
      match ExporterFor(s, s.dsn.value)
      case Err(e) => Err(e)
      case Ok(exporter) => if wiringSucceeds then Ok(exporter) else Err("Failed to initialize Uptrace telemetry")
  }

  /** The set-up succeeds exactly with a DSN, the packages, a valid configuration and working wiring, and builds the configured exporter. */
  lemma ConfigureMeaning(s: Settings, packagesPresent: bool, wiringSucceeds: bool)
    ensures Configure(s, packagesPresent, wiringSucceeds).Ok? <==>
              s.dsn.Some? && packagesPresent && ExporterFor(s, s.dsn.value).Ok? && wiringSucceeds
    ensures Configure(s, packagesPresent, wiringSucceeds).Ok? ==>
              Configure(s, packagesPresent, wiringSucceeds).value == ExporterFor(s, s.dsn.value).value
  {
  }

  /** The FastAPI application's `_uptrace_telemetry_enabled` attribute. */
  class App {
    var telemetryEnabled: bool

    constructor ()
      ensures !telemetryEnabled
    {
      telemetryEnabled := false;
    }
  }

  /** The module-level `_INSTRUMENTED` flag. */
  class Instrumentation {
    var instrumented: bool

    constructor ()
      ensures !instrumented
    {
      instrumented := false;
    }

    /**
     * `setup_uptrace_telemetry`, given the settings `ReadSettings` reads from the environment
     * and `ow_config`: `True` at once when already set up; `False` without a DSN, without the
     * OpenTelemetry packages, on any configuration error or when the library wiring fails;
     * otherwise the exporter is built, both flags are set and the answer is `True`.
     */
    method SetupUptraceTelemetry(app: App, settings: Settings, packagesPresent: bool, wiringSucceeds: bool)
      returns (ok: bool, exporter: Option<Exporter>)
      modifies this, app
      ensures old(instrumented) || old(app.telemetryEnabled) ==>
                ok && exporter.None? && instrumented == old(instrumented) && app.telemetryEnabled == old(app.telemetryEnabled)
      ensures !old(instrumented) && !old(app.telemetryEnabled) ==>
                && (ok <==> Configure(settings, packagesPresent, wiringSucceeds).Ok?)
                && (ok ==> exporter == Some(Configure(settings, packagesPresent, wiringSucceeds).value))
                && (ok ==> instrumented && app.telemetryEnabled)
                && (!ok ==> exporter.None? && !instrumented && !app.telemetryEnabled)
    {
      if instrumented || app.telemetryEnabled {
        return true, None;
      }
      var built := Configure(settings, packagesPresent, wiringSucceeds);
      if built.Err? {
        return false, None;
      }
      instrumented := true;
      app.telemetryEnabled := true;
      return true, Some(built.value);
    }
  }
}
