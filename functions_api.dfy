/**
 * The procedural helpers of FunctionsAPI.php. ProcessWire's `$config`,
 * `$_SERVER`, the file system and the 404 page are parameters.
 */
module FunctionsApi {
  import opened Wrappers
  import opened Dict
  import opened Php
  import opened Output

  /** `$_SERVER`: server and request variables. */
  type Server = map<string, string>

  /** The parts of ProcessWire's `$config` these helpers read: `$config->paths` and `$config->urls`. */
  datatype Config = Config(debug: bool, paths: map<string, string>, urls: map<string, string>)

  /** `file_exists` and `filemtime`: the files that exist, with their modification times. */
  type Files = map<string, nat>

  /** A ProcessWire page as these helpers see it. */
  datatype PageRef = PageRef(id: int, url: string, httpUrl: string)

  /** `string | Page $name` of `hxGetUrl`. */
  datatype UrlName = PageName(page: PageRef) | ConfigName(name: string)

  /** The server variable that carries the `HX-Request` request header. */
  const HxRequestVar := "HTTP_HX_REQUEST"

  /** A property of `$config->paths` or `$config->urls`, or `$_SERVER`; a missing one reads as `null`, which prints as "". */
  function Lookup(m: map<string, string>, name: string): string {
    if name in m then m[name] else ""
  }

  /** `trim(strtok($uri, '?'), '/')`: the request path without query and outer slashes. */
  function RequestPath(uri: string): (path: string)
    ensures path == [] || (path[0] != '/' && path[|path| - 1] != '/')
    ensures '?' !in path
    ensures path == Trim(Before(LTrim(uri, '?'), '?'), '/')
    ensures (uri == [] || uri[0] != '?') ==> path == Trim(Before(uri, '?'), '/')
  {
    var token := match StrTok(uri, '?') case Some(t) => t case None => "";
    PathToken(uri);
    Trim(token, '/')
  }

  /** What `strtok($uri, '?')` yields, with `false` read as "": the text before the first `?` after the leading ones. */
  lemma PathToken(uri: string)
    ensures (match StrTok(uri, '?') case Some(t) => t case None => "") == Before(LTrim(uri, '?'), '?')
    ensures (uri == [] || uri[0] != '?') ==> LTrim(uri, '?') == uri
  {
    var rest := LTrim(uri, '?');
    if rest == [] {
      assert Before(rest, '?') == [];
    }
    assert uri[0..] == uri;
  }

  /**
   * `hxInAdmin()`: the first `/`-separated segment of the request path is
   * the admin URL with its outer slashes trimmed, and that is not falsy.
   */
  function HxInAdmin(server: Server, config: Config): (r: bool)
    ensures r <==> var admin := Trim(Lookup(config.urls, "admin"), '/');
                   Truthy(admin) && Before(RequestPath(Lookup(server, "REQUEST_URI")), '/') == admin
  {
    var url := RequestPath(Lookup(server, "REQUEST_URI"));
    var segment := Before(url, '/');
    var adminURL := Lookup(config.urls, "admin");
    var adminURL' := if Truthy(adminURL) then RTrim(LTrim(adminURL, '/'), '/') else adminURL;
    assert adminURL' == Trim(adminURL, '/') by {
      if !Truthy(adminURL) {
        TrimFalsy(adminURL, '/');
      }
    }
    Truthy(adminURL') && segment == adminURL'
  }

  /**
   * `isHtmxRequest()`: `HTTP_HX_REQUEST` is set and loosely equals
   * `'true'` or `true`, so every string but "" and "0" counts, "false" included.
   */
  function IsHtmxRequest(server: Server): (r: bool)
    ensures r <==> HxRequestVar in server && server[HxRequestVar] != "" && server[HxRequestVar] != "0"
    ensures HxRequestVar in server && server[HxRequestVar] == "false" ==> r
  {
    HxRequestVar in server && (server[HxRequestVar] == "true" || Truthy(server[HxRequestVar]))
  }

  /** `hxGetPath($name, $path)`: `$path` under the configured path `$name`, or `$path` alone when there is none. */
  function HxGetPath(config: Config, name: string, path: string): (r: string)
    ensures !Truthy(Lookup(config.paths, name)) ==> r == path
    ensures Truthy(Lookup(config.paths, name)) ==> StartsWith(r, config.paths[name]) && r[|config.paths[name]|..] == path
  {
    var base := Lookup(config.paths, name);
    if Truthy(base) then base + path else path
  }

  /** `'http' . ucfirst($name)`: the name of the absolute-URL variant of a `$config->urls` entry. */
  function HttpName(name: string): (r: string)
    ensures |r| == 4 + |name| && StartsWith(r, "http")
    ensures name != [] ==> r[5..] == name[1..]
  {
    "http" + UcFirst(name)
  }

  /** `hxGetUrl($name, $url, $http)`: a page's URL or a configured URL, with `$url` appended. */
  function HxGetUrl(config: Config, name: UrlName, url: string, http: bool): (r: string)
    ensures |url| <= |r| && r[|r| - |url|..] == url
    ensures name.PageName? ==> r[..|r| - |url|] == if http then name.page.httpUrl else name.page.url
    ensures name.ConfigName? ==> r[..|r| - |url|] == Lookup(config.urls, if http then HttpName(name.name) else name.name)
  {
    var base :=
      match name
      case PageName(page) => if http then page.httpUrl else page.url
      case ConfigName(n) => Lookup(config.urls, if http then HttpName(n) else n);
    base + url
  }

  /** The file `hxGetAssetUrl` asks the modification time of: `$paths->{$from} . "/{$filename}"`. */
  function AssetFile(config: Config, from: string, filename: string): string {
    Lookup(config.paths, from) + "/" + filename
  }

  /** `$paths->{$from}` is set and the asset file exists: only then is a version appended. */
  predicate HasVersion(config: Config, files: Files, from: string, filename: string) {
    from in config.paths && AssetFile(config, from, filename) in files
  }

  /**
   * `hxGetAssetUrl($from, $filename, $http)`: the URL of a file under a
   * configured directory, with `?v=<mtime>` when the file exists.
   */
  function HxGetAssetUrl(config: Config, files: Files, from: string, filename: string, http: bool): (r: string)
    ensures var from' := if http then HttpName(from) else from;
            var base := Lookup(config.urls, from');
            && (Truthy(base) ==> StartsWith(r, base + filename))
            && (!Truthy(base) ==> StartsWith(r, filename))
            && (HasVersion(config, files, from', filename) ==>
                  |r| == (if Truthy(base) then |base| else 0) + |filename| + 3 + |DecimalString(files[AssetFile(config, from', filename)])|
                  && r[|r| - |DecimalString(files[AssetFile(config, from', filename)])| - 3..]
                     == "?v=" + DecimalString(files[AssetFile(config, from', filename)]))
            && (!HasVersion(config, files, from', filename) ==>
                  |r| == (if Truthy(base) then |base| else 0) + |filename|)
  {
    var from' := if http then HttpName(from) else from;
    var version :=
      if HasVersion(config, files, from', filename)
      then "?v=" + DecimalString(files[AssetFile(config, from', filename)])
      else "";
    var base := Lookup(config.urls, from');
    if Truthy(base) then base + filename + version else filename + version
  }

  /** What `hxSessionRedirect` does: send one header, or hand over to `$session->redirect()`, which ends the request. */
  datatype Effect = EmitHeader(line: string) | SessionRedirect(url: string)

  /**
   * `hxSessionRedirect($url)`: an htmx request gets exactly the header
   * `HX-Redirect: url` and no session redirect; any other request gets the
   * session redirect and no header.
   */
  function HxSessionRedirect(server: Server, url: string): (e: Effect)
    ensures e.EmitHeader? <==> IsHtmxRequest(server)
    ensures e.EmitHeader? ==> e.line == "HX-Redirect: " + url
    ensures e.SessionRedirect? ==> e.url == url
  {
    if IsHtmxRequest(server) then EmitHeader(HeaderLine("HX-Redirect", url)) else SessionRedirect(url)
  }

  /**
   * `hxNotFoundRedirect()`: `notFound` is what `$pages->get($config->http404PageID)`
   * returns; a page with id 0 (none found) leads to no action at all.
   */
  function HxNotFoundRedirect(server: Server, notFound: PageRef): (r: Option<Effect>)
    ensures r.None? <==> notFound.id == 0
    ensures r.Some? ==> r.value == HxSessionRedirect(server, notFound.httpUrl)
  {
    if notFound.id != 0 then Some(HxSessionRedirect(server, notFound.httpUrl)) else None
  }

  /** A value in the `$options` array of the response helpers: a status code or a header array. */
  datatype OptionValue = Int(i: int) | Headers(h: Dict<string>)

  const DefaultOptions: Dict<OptionValue> := [("status", Int(200)), ("headers", Headers([]))]

  /**
   * `hxResponseOptions($options)`: `array_merge` of the defaults and the
   * caller's options, so `status` and `headers` come first and every other
   * option follows.
   */
  function HxResponseOptions(options: Dict<OptionValue>): (r: Dict<OptionValue>)
    ensures |r| >= 2 && Keys(r)[..2] == ["status", "headers"]
    ensures Unique(options) ==> Unique(r)
  {
    var r := Merge(DefaultOptions, options);
    DefaultOptionsFacts();
    MergeKeys(DefaultOptions, options);
    var ks := Keys(r);
    assert ks == ["status", "headers"] + Appended(Keys(DefaultOptions), Keys(options));
    assert ks[..2] == ["status", "headers"];
    MergeUnique(DefaultOptions, options);
    r
  }

  /** The defaults: `status` 200, then `headers` empty, and nothing else. */
  lemma DefaultOptionsFacts()
    ensures Keys(DefaultOptions) == ["status", "headers"]
    ensures Unique(DefaultOptions)
    ensures Get(DefaultOptions, "status") == Some(Int(200))
    ensures Get(DefaultOptions, "headers") == Some(Headers([]))
    ensures forall k :: k != "status" && k != "headers" ==> Get(DefaultOptions, k) == None
  {
    assert Keys(DefaultOptions) == ["status", "headers"];
  }

  /**
   * The merge is shallow: a caller's `status` or `headers` replaces the
   * default wholesale, and every other option keeps the caller's value.
   */
  lemma HxResponseOptionsValues(options: Dict<OptionValue>)
    requires Unique(options)
    ensures var r := HxResponseOptions(options);
      && Get(r, "status") == (if "status" in Keys(options) then Get(options, "status") else Some(Int(200)))
      && Get(r, "headers") == (if "headers" in Keys(options) then Get(options, "headers") else Some(Headers([])))
      && forall k :: k != "status" && k != "headers" ==> Get(r, k) == Get(options, k)
  {
    var r := HxResponseOptions(options);
    DefaultOptionsFacts();
    forall k ensures Get(r, k) == if k in Keys(options) then Get(options, k) else Get(DefaultOptions, k) {
      MergeGet(DefaultOptions, options, k);
      LastIsGet(options, k);
    }
  }

  const HtmlType := "text/html; charset=utf-8"
  const JsonType := "application/json; charset=utf-8"

  /** The merged `status` option, which the defaults guarantee is present. */
  function StatusOption(options: Dict<OptionValue>): (r: OptionValue)
    ensures Unique(options) ==> r == if "status" in Keys(options) then Get(options, "status").value else Int(200)
  {
    var merged := HxResponseOptions(options);
    assert Keys(merged)[0] == "status";
    if Unique(options) then
      HxResponseOptionsValues(options);
      Get(merged, "status").value
    else
      Get(merged, "status").value
  }

  /**
   * The headers `hxResponseHTML`/`hxResponseJSON` hand to `hxSetHeaders`:
   * the merged `headers` option with `Content-Type` forced to
   * `contentType` over any value the caller gave. `None` when the option
   * is an integer: assigning a key into it throws.
   */
  function PreparedHeaders(options: Dict<OptionValue>, contentType: string): (r: Option<Dict<string>>)
    ensures r.Some? ==> Get(r.value, "Content-Type") == Some(contentType) && r.value != []
  {
    HeadersOptionPresent(options);
    match Get(HxResponseOptions(options), "headers").value
    case Headers(h) => Some(Set(h, "Content-Type", contentType))
    case Int(_) => None
  }

  /** After the merge with the defaults there is always a `headers` option. */
  lemma HeadersOptionPresent(options: Dict<OptionValue>)
    ensures Get(HxResponseOptions(options), "headers").Some?
  {
    var ks := Keys(HxResponseOptions(options));
    assert ks[..2][1] == "headers";
    assert ks[1] in ks;
  }

  /**
   * What `hxResponseHTML`/`hxResponseJSON` put on the wire for a body:
   * the prepared headers, then the status, then the body. An integer
   * `headers` option throws before anything is sent; an array `status`
   * throws the `TypeError` of `http_response_code` after the header lines
   * have gone out.
   */
  function Responded(options: Dict<OptionValue>, contentType: string, body: string): (o: Outcome)
    ensures o.headerLines == if PreparedHeaders(options, contentType).Some?
                             then HeaderLines(PreparedHeaders(options, contentType).value) else []
  {
    match PreparedHeaders(options, contentType)
    case None => Thrown(ScalarAsArray, [])
    case Some(headers) =>
      match StatusOption(options)
      case Headers(_) => Thrown(TypeError, HeaderLines(headers))
      case Int(code) => Sent(EffectiveStatus(code), HeaderLines(headers), body)
  }

  /**
   * The outcome by the caller's options: an integer `headers` option fails
   * first and sends nothing; otherwise an array `status` fails after the
   * header lines, and any other status goes out (a zero status leaves the
   * default 200), followed by the body.
   */
  lemma PreparedStatus(options: Dict<OptionValue>, contentType: string, body: string)
    requires Unique(options)
    ensures var o := Responded(options, contentType, body);
            var status := Get(options, "status");
            var headers := Get(options, "headers");
      && (o == Thrown(ScalarAsArray, []) <==> headers.Some? && headers.value.Int?)
      && (o.Thrown? && o.error == TypeError <==>
            !(headers.Some? && headers.value.Int?) && status.Some? && status.value.Headers?)
      && (o.Thrown? && o.error == TypeError ==> |o.headerLines| >= 1)
      && (o.Sent? && status.None? ==> o.status == 200)
      && (o.Sent? && status.Some? && status.value.Int? ==> o.status == EffectiveStatus(status.value.i))
      && (o.Sent? ==> o.body == body)
  {
    var merged := HxResponseOptions(options);
    HxResponseOptionsValues(options);
    assert Get(merged, "headers") == (if "headers" in Keys(options) then Get(options, "headers") else Some(Headers([])));
    var prepared := PreparedHeaders(options, contentType);
    if prepared.Some? {
      assert |HeaderLines(prepared.value)| == |prepared.value| >= 1;
    }
  }

  /** Without caller headers, only `Content-Type` is sent. */
  lemma PreparedHeadersDefault(options: Dict<OptionValue>, contentType: string)
    requires Unique(options)
    requires "headers" !in Keys(options)
    ensures PreparedHeaders(options, contentType) == Some([("Content-Type", contentType)])
  {
    HxResponseOptionsValues(options);
    SetEmpty("Content-Type", contentType);
  }

  /** Every caller header but `Content-Type` is sent with the caller's value. */
  lemma PreparedHeadersKept(options: Dict<OptionValue>, contentType: string, headers: Dict<string>, k: string)
    requires Unique(options)
    requires Get(options, "headers") == Some(Headers(headers))
    requires k != "Content-Type"
    ensures var r := PreparedHeaders(options, contentType);
      r.Some? && Get(r.value, k) == Get(headers, k)
  {
    HxResponseOptionsValues(options);
    var merged := HxResponseOptions(options);
    assert "headers" in Keys(options);
    assert Get(merged, "headers") == Some(Headers(headers));
    assert PreparedHeaders(options, contentType) == Some(Set(headers, "Content-Type", contentType));
  }

  /** `hxResponseHTML($response, $options)`: sends `$response` as `text/html`. */
  method HxResponseHTML(response: string, options: Dict<OptionValue>) returns (outcome: Outcome)
    ensures outcome == Responded(options, HtmlType, response)
  {
    var prepared := PreparedHeaders(options, HtmlType);
    if prepared.None? {
      return Thrown(ScalarAsArray, []);
    }
    var lines := SendHeaders(prepared.value);
    match StatusOption(options)
    case Headers(_) =>
      outcome := Thrown(TypeError, lines);
    case Int(code) =>
      outcome := Sent(EffectiveStatus(code), lines, response);
  }

  /** `hxResponseJSON($response, $options)`: sends an array JSON-encoded, anything else as it is, as `application/json`. */
  method HxResponseJSON(response: Value, options: Dict<OptionValue>, json: JsonCodec) returns (outcome: Outcome)
    ensures outcome == Responded(options, JsonType, EchoBody(response, json))
  {
    var prepared := PreparedHeaders(options, JsonType);
    if prepared.None? {
      return Thrown(ScalarAsArray, []);
    }
    var lines := SendHeaders(prepared.value);
    match StatusOption(options)
    case Headers(_) =>
      outcome := Thrown(TypeError, lines);
    case Int(code) =>
      outcome := Sent(EffectiveStatus(code), lines, EchoBody(response, json));
  }

  /**
   * `hxResponse($response, $options)`: JSON for an array, HTML otherwise;
   * `null` does not fit `hxResponseHTML`'s `string` parameter.
   */
  method HxResponse(response: Value, options: Dict<OptionValue>, json: JsonCodec) returns (outcome: Outcome)
    ensures response.Arr? ==> outcome == Responded(options, JsonType, json.encode(response))
    ensures response.Str? ==> outcome == Responded(options, HtmlType, response.s)
    ensures response.Null? ==> outcome == Thrown(TypeError, [])
  {
    match response
    case Arr(_) =>
      outcome := HxResponseJSON(response, options, json);
    case Str(s) =>
      outcome := HxResponseHTML(s, options);
    case Null =>
      outcome := Thrown(TypeError, []);
  }
}
