/**
 * `HtmxRequest` (src/HtmxRequest.php): read access to the decoded htmx
 * request headers, and the rewriting of the `HX-Current-URL` header
 * (dropping the host, merging override query parameters).
 *
 * URLs are split the way `parse_url` splits the common shapes: the
 * fragment after `#`, the query after `?`, and an optional
 * `scheme://authority` or `//authority` before the path. Queries are
 * `k=v` pairs joined by `&`, without percent-encoding.
 */
module Request {
  import opened Wrappers
  import opened Dict
  import opened Php
  import opened HtmxModule

  /** The URL up to its fragment and query. */
  function BeforeQuery(url: string): (r: string)
    ensures '?' !in r && '#' !in r
    ensures StartsWith(url, r)
    ensures |r| < |url| ==> url[|r|] == '?' || url[|r|] == '#'
  {
    var noFragment := Before(url, '#');
    var r := Before(noFragment, '?');
    assert forall x :: x in r ==> x in noFragment by {
      forall x | x in r ensures x in noFragment {
        var i :| 0 <= i < |r| && r[i] == x;
        assert noFragment[i] == x;
      }
    }
    assert url[..|r|] == noFragment[..|r|];
    r
  }

  /** `s` opens with a scheme: a non-empty run without `/`, then `://`. */
  predicate HasScheme(s: string) {
    var scheme := Before(s, ':');
    ':' in s && scheme != "" && '/' !in scheme && StartsWith(s[|scheme| + 1..], "//")
  }

  /** Where the path of `s` (with no query or fragment) starts: after any scheme and authority. */
  function PathStart(s: string): (start: nat)
    ensures start <= |s|
  {
    var afterScheme := if HasScheme(s) then |Before(s, ':')| + 1 else 0;
    var rest := s[afterScheme..];
    if StartsWith(rest, "//") then afterScheme + 2 + |Before(rest[2..], '/')| else afterScheme
  }

  /** `parse_url($url)['path']`: drops fragment, query, scheme and authority; "" when there is no path. */
  function UrlPath(url: string): (path: string)
    ensures '?' !in path && '#' !in path
    ensures var s := BeforeQuery(url); |path| <= |s| && path == s[|s| - |path|..]
  {
    var s := BeforeQuery(url);
    var path := s[PathStart(s)..];
    assert forall x :: x in path ==> x in s;
    path
  }

  /** `parse_url($url)['query'] ?? ''`: from the first `?` up to the fragment. */
  function UrlQuery(url: string): (q: string)
    ensures '#' !in q
    ensures '?' !in Before(url, '#') ==> q == ""
    ensures '?' in Before(url, '#') ==> Before(url, '#') == BeforeQuery(url) + ['?'] + q
  {
    var noFragment := Before(url, '#');
    assert forall x :: x in After(noFragment, '?').GetOr("") ==> x in noFragment;
    After(noFragment, '?').GetOr("")
  }

  /** `implode($separator, $parts)`. */
  function Join(parts: seq<string>, separator: string): string
    decreases |parts|
  {
    if parts == [] then ""
    else if |parts| == 1 then parts[0]
    else parts[0] + separator + Join(parts[1..], separator)
  }

  /** Joining one more part at the end adds the separator and that part. */
  lemma {:induction false} JoinSnoc(parts: seq<string>, part: string, separator: string)
    requires parts != []
    ensures Join(parts + [part], separator) == Join(parts, separator) + separator + part
    decreases |parts|
  {
    var all := parts + [part];
    assert all[1..] == parts[1..] + [part];
    if |parts| > 1 {
      JoinSnoc(parts[1..], part, separator);
    } else {
      assert Join(all[1..], separator) == part;
    }
  }

  /** The `&`-separated segments of a query, empty ones included. */
  function Segments(q: string): (segments: seq<string>)
    ensures |segments| >= 1
    ensures forall i :: 0 <= i < |segments| ==> '&' !in segments[i]
    decreases |q|
  {
    match After(q, '&')
    case None => [q]
    case Some(rest) => [Before(q, '&')] + Segments(rest)
  }

  /** Joined again with `&`, the segments give the query back. */
  lemma {:induction false} SegmentsJoin(q: string)
    ensures Join(Segments(q), "&") == q
    decreases |q|
  {
    match After(q, '&')
    case None =>
    case Some(rest) =>
      SegmentsJoin(rest);
      var segments := Segments(q);
      assert segments[1..] == Segments(rest);
  }

  /** One segment as a pair: the key up to the first `=`, the value after it ("" when there is no `=`). */
  function Pair(segment: string): (p: (string, string))
    ensures '=' !in p.0
  {
    (Before(segment, '='), After(segment, '=').GetOr(""))
  }

  /** The pairs of a query in order, leaving out segments whose key is empty. */
  function QueryPairs(q: string): (pairs: Dict<string>)
    ensures forall i :: 0 <= i < |pairs| ==> pairs[i].0 != "" && '&' !in pairs[i].0 && '=' !in pairs[i].0
  {
    PairsOf(Segments(q))
  }

  function PairsOf(segments: seq<string>): (pairs: Dict<string>)
    requires forall i :: 0 <= i < |segments| ==> '&' !in segments[i]
    ensures forall i :: 0 <= i < |pairs| ==> pairs[i].0 != "" && '&' !in pairs[i].0 && '=' !in pairs[i].0
    decreases |segments|
  {
    if segments == [] then []
    else
      var p := Pair(segments[0]);
      assert StartsWith(segments[0], p.0);
      assert forall x :: x in p.0 ==> x in segments[0] by {
        forall x | x in p.0 ensures x in segments[0] {
          var i :| 0 <= i < |p.0| && p.0[i] == x;
          assert segments[0][i] == x;
        }
      }
      (if p.0 == "" then [] else [p]) + PairsOf(segments[1..])
  }

  /** `parse_str($query, $params)`: a repeated key keeps its first position and its last value. */
  function ParseQuery(q: string): (params: Dict<string>)
    ensures Unique(params)
    ensures forall k :: Get(params, k) == Last(QueryPairs(q), k)
    ensures Keys(params) == Appended([], Keys(QueryPairs(q)))
  {
    var pairs := QueryPairs(q);
    MergeUnique([], pairs);
    MergeKeys([], pairs);
    assert Keys<string>([]) == [];
    forall k ensures Get(Merge([], pairs), k) == Last(pairs, k) {
      MergeGet([], pairs, k);
    }
    Merge([], pairs)
  }

  /** A URL with no query has no parameters. */
  lemma NoQueryNoParams(url: string)
    requires '?' !in Before(url, '#')
    ensures ParseQuery(UrlQuery(url)) == []
  {
    assert Segments("") == [""];
    assert QueryPairs("") == [];
  }

  /** `http_build_query($params, '', $separator)`: `k=v` pairs joined by the separator. */
  function BuildQuery(params: Dict<string>, separator: string): (q: string)
    ensures params == [] <==> q == ""
    decreases |params|
  {
    if params == [] then ""
    else
      var last := params[|params| - 1];
      var pair := PairText(last);
      assert pair[|last.0|] == '=';
      if |params| == 1 then pair
      else BuildQuery(params[..|params| - 1], separator) + separator + pair
  }

  /** A query built from pairs with `&` parses back to the same pairs. */
  lemma {:induction false} BuildQuerySegments(params: Dict<string>)
    requires params != []
    requires forall i :: 0 <= i < |params| ==> '&' !in params[i].0 && '=' !in params[i].0 && '&' !in params[i].1
    ensures Segments(BuildQuery(params, "&")) == PairTexts(params)
    decreases |params|
  {
    var pair := PairText(params[|params| - 1]);
    if |params| > 1 {
      var init := params[..|params| - 1];
      calc {
        Segments(BuildQuery(params, "&"));
        Segments(BuildQuery(init, "&") + "&" + pair);
      == { SegmentsAppend(BuildQuery(init, "&"), pair); }
        Segments(BuildQuery(init, "&")) + [pair];
      == { BuildQuerySegments(init); }
        PairTexts(init) + [pair];
      == { assert PairTexts(params) == PairTexts(init) + [pair]; }
        PairTexts(params);
      }
    } else {
      assert '&' !in pair;
      assert PairTexts(params) == [pair];
    }
  }

  /** Joining with `&` adds one segment. */
  lemma {:induction false} SegmentsAppend(s: string, t: string)
    requires '&' !in t
    ensures Segments(s + "&" + t) == Segments(s) + [t]
    decreases |s|
  {
    var u := s + "&" + t;
    match After(s, '&')
    case None =>
      AfterSplit(u, s, t, '&');
      assert After(t, '&').None?;
    case Some(rest) =>
      var head := Before(s, '&');
      assert s == head + ['&'] + rest;
      assert u == head + ['&'] + (rest + "&" + t);
      AfterSplit(u, head, rest + "&" + t, '&');
      SegmentsAppend(rest, t);
  }

  /** Splitting at the first `c`: what comes before it and after it. */
  lemma {:induction false} AfterSplit(u: string, head: string, tail: string, c: char)
    requires c !in head && u == head + [c] + tail
    ensures Before(u, c) == head && After(u, c) == Some(tail)
    decreases |head|
  {
    if head != [] {
      assert u[1..] == head[1..] + [c] + tail;
      AfterSplit(u[1..], head[1..], tail, c);
    }
  }

  /** A pair written as a query segment. */
  function PairText(p: (string, string)): string {
    p.0 + "=" + p.1
  }

  /** Each pair written as a query segment, in order. */
  function PairTexts(params: Dict<string>): (texts: seq<string>)
    ensures |texts| == |params|
    ensures forall i :: 0 <= i < |params| ==> texts[i] == PairText(params[i])
  {
    seq(|params|, i requires 0 <= i < |params| => PairText(params[i]))
  }

  /** The query is the `k=v` segments of the pairs, in order, joined by the separator. */
  lemma {:induction false} BuildQueryJoins(params: Dict<string>, separator: string)
    ensures BuildQuery(params, separator) == Join(PairTexts(params), separator)
    decreases |params|
  {
    if |params| > 1 {
      var init := params[..|params| - 1];
      BuildQueryJoins(init, separator);
      assert PairTexts(params) == PairTexts(init) + [PairText(params[|params| - 1])];
      JoinSnoc(PairTexts(init), PairText(params[|params| - 1]), separator);
    } else if |params| == 1 {
      assert PairTexts(params) == [PairText(params[0])];
    }
  }

  /** Pairs that a query can carry as they are: a non-empty key, no `=` in it and no `&` anywhere. */
  predicate PlainPairs(params: Dict<string>) {
    forall i :: 0 <= i < |params| ==> params[i].0 != "" && '=' !in params[i].0 && '&' !in params[i].0 && '&' !in params[i].1
  }

  /** Reading back the segments of plain pairs gives the pairs. */
  lemma {:induction false} PairsOfPairTexts(params: Dict<string>)
    requires PlainPairs(params)
    ensures forall i :: 0 <= i < |params| ==> '&' !in PairText(params[i])
    ensures PairsOf(PairTexts(params)) == params
    decreases |params|
  {
    if params != [] {
      var rest := params[1..];
      PairsOfPairTexts(rest);
      var texts := PairTexts(params);
      assert texts[1..] == PairTexts(rest);
      AfterSplit(texts[0], params[0].0, params[0].1, '=');
      assert Pair(texts[0]) == params[0];
      assert params == [params[0]] + rest;
    }
  }

  /**
   * `parse_str` reads back what `http_build_query` wrote with `&`, for
   * plain pairs with distinct keys.
   */
  lemma QueryRoundTrip(params: Dict<string>)
    requires Unique(params) && PlainPairs(params)
    ensures ParseQuery(BuildQuery(params, "&")) == params
  {
    if params == [] {
      assert Segments("") == [""];
    } else {
      BuildQuerySegments(params);
      PairsOfPairTexts(params);
      MergeIntoEmpty(params);
    }
  }

  /** The options of `currentURL()`: whether to drop the host, the query separator, the override parameters. */
  datatype UrlOptions = UrlOptions(clear: bool, separator: string, override: Dict<string>)

  /** `['clear' => false, 'separator' => '&', 'override' => []]`. */
  const DefaultUrlOptions := UrlOptions(false, "&", [])

  /** The part before the query of a string with no query or fragment, followed by one, is that string. */
  lemma BeforeQueryOf(s: string, rest: string)
    requires '?' !in s && '#' !in s
    requires rest == [] || rest[0] == '?' || rest[0] == '#'
    ensures BeforeQuery(s + rest) == s
  {
    var u := s + rest;
    assert u[..|s|] == s;
  }

  /**
   * `scheme://host/path?query#fragment` has the path `/path`: scheme,
   * host, query and fragment are all dropped.
   */
  lemma UrlPathOfAbsolute(scheme: string, host: string, path: string, rest: string)
    requires scheme != "" && ':' !in scheme && '/' !in scheme && '?' !in scheme && '#' !in scheme
    requires '/' !in host && '?' !in host && '#' !in host
    requires (path == [] || path[0] == '/') && '?' !in path && '#' !in path
    requires rest == [] || rest[0] == '?' || rest[0] == '#'
    ensures UrlPath(scheme + "://" + host + path + rest) == path
  {
    var s := scheme + "://" + host + path;
    assert scheme + "://" + host + path + rest == s + rest;
    BeforeQueryOf(s, rest);
    PathStartOfAbsolute(scheme, host, path);
    assert s[|scheme| + 3 + |host|..] == path;
  }

  /** A plain `/path` followed by a query or fragment has that path. */
  lemma UrlPathOfRelative(path: string, rest: string)
    requires path != [] && path[0] == '/' && !StartsWith(path, "//")
    requires '?' !in path && '#' !in path
    requires rest == [] || rest[0] == '?' || rest[0] == '#'
    ensures UrlPath(path + rest) == path
  {
    BeforeQueryOf(path, rest);
  }

  /** The path of `scheme://host/path` starts right after the host. */
  lemma PathStartOfAbsolute(scheme: string, host: string, path: string)
    requires scheme != "" && ':' !in scheme && '/' !in scheme
    requires '/' !in host
    requires path == [] || path[0] == '/'
    ensures PathStart(scheme + "://" + host + path) == |scheme| + 3 + |host|
  {
    var s := scheme + "://" + host + path;
    var tail := "//" + host + path;
    assert s == scheme + [':'] + tail;
    SchemeOf(scheme, tail);
    PathStartAfter(s, |scheme| + 1, host, path);
  }

  /** Once the scheme ends at `k`, the path starts after `//host`. */
  lemma PathStartAfter(s: string, k: nat, host: string, path: string)
    requires HasScheme(s) && |Before(s, ':')| + 1 == k <= |s|
    requires s[k..] == "//" + host + path
    requires '/' !in host
    requires path == [] || path[0] == '/'
    ensures PathStart(s) == k + 2 + |host|
  {
    var tail := s[k..];
    assert tail[2..] == host + path;
    HostOf(host, path);
  }

  /** `scheme:` followed by `//` opens with a scheme. */
  lemma SchemeOf(scheme: string, tail: string)
    requires scheme != "" && ':' !in scheme && '/' !in scheme
    requires StartsWith(tail, "//")
    ensures Before(scheme + [':'] + tail, ':') == scheme
    ensures HasScheme(scheme + [':'] + tail)
    ensures (scheme + [':'] + tail)[|scheme| + 1..] == tail
  {
    AfterSplit(scheme + [':'] + tail, scheme, tail, ':');
  }

  /** A host without `/` ends where the path starts. */
  lemma HostOf(host: string, path: string)
    requires '/' !in host
    requires path == [] || path[0] == '/'
    ensures Before(host + path, '/') == host
  {
    var u := host + path;
    if path == [] {
      assert u == host;
      BeforeAbsent(host, '/');
    } else {
      var tail := path[1..];
      assert path == ['/'] + tail;
      assert u == host + ['/'] + tail;
      AfterSplit(u, host, tail, '/');
    }
  }

  /**
   * The query parameters of a URL with the override merged in:
   * `array_merge($params, $override)`. The URL's own parameters keep their
   * places at the front, and a non-empty override never leaves it empty.
   */
  function MergedParams(url: string, override: Dict<string>): (r: Dict<string>)
    ensures var params := ParseQuery(UrlQuery(url)); |params| <= |r| && Keys(r)[..|params|] == Keys(params)
    ensures override != [] ==> r != []
  {
    var params := ParseQuery(UrlQuery(url));
    if override != [] then
      MergeNonEmpty(params, override);
      Merge(params, override)
    else
      Merge(params, override)
  }

  /**
   * `currentURL($options)` on the header value `url` (`None` when the
   * headers were never decoded): a falsy value is returned as it is;
   * otherwise `clear` removes every occurrence of the host URL, and a
   * non-empty override rebuilds the URL as `path?query`.
   */
  function RewriteUrl(url: Option<string>, options: UrlOptions, httpHostUrl: string): (r: Option<string>)
    ensures r.None? <==> url.None?
  {
    if url.None? || !Truthy(url.value) then url
    else Some(Overridden(Cleared(url.value, options.clear, httpHostUrl), options))
  }

  /** The `clear` step: `str_replace($httpHostUrl, '', $url)` when asked for. */
  function Cleared(url: string, clear: bool, httpHostUrl: string): string {
    if clear then StrReplace(httpHostUrl, "", url) else url
  }

  /** The `override` step: a non-empty override rebuilds the URL as `path?query`. */
  function Overridden(url: string, options: UrlOptions): string {
    if options.override != [] then
      UrlPath(url) + "?" + BuildQuery(MergedParams(url, options.override), options.separator)
    else url
  }

  /** With the default options the header comes back unchanged. */
  lemma RewriteDefault(url: Option<string>, httpHostUrl: string)
    ensures RewriteUrl(url, DefaultUrlOptions, httpHostUrl) == url
  {
  }

  /** A falsy header ("" or "0") comes back unchanged whatever the options. */
  lemma RewriteFalsy(url: string, options: UrlOptions, httpHostUrl: string)
    requires !Truthy(url)
    ensures RewriteUrl(Some(url), options, httpHostUrl) == Some(url)
  {
  }

  /**
   * `clear` works on every occurrence of the host URL, not only a leading
   * one: the part before the first occurrence is kept, the occurrence is
   * dropped, and the rest is cleared the same way.
   */
  lemma RewriteClearsEveryOccurrence(before: string, after: string, options: UrlOptions, httpHostUrl: string)
    requires options.clear && options.override == []
    requires Truthy(httpHostUrl)
    requires NoneBefore(before + httpHostUrl + after, httpHostUrl, |before|)
    ensures RewriteUrl(Some(before + httpHostUrl + after), options, httpHostUrl)
         == Some(before + StrReplace(httpHostUrl, "", after))
  {
    var url := before + httpHostUrl + after;
    var rest := StrReplace(httpHostUrl, "", after);
    TruthyAround(before, httpHostUrl, after);
    calc {
      RewriteUrl(Some(url), options, httpHostUrl);
    == { RewriteClearOnly(url, options, httpHostUrl); }
      Some(StrReplace(httpHostUrl, "", url));
    == { StrReplaceFirst(httpHostUrl, "", before, after); }
      Some(before + "" + rest);
    == { assert before + "" == before; }
      Some(before + rest);
    }
  }

  /** With `clear` on and no override, a truthy header loses every occurrence of the host URL and nothing else. */
  lemma RewriteClearOnly(url: string, options: UrlOptions, httpHostUrl: string)
    requires options.clear && options.override == [] && Truthy(url)
    ensures RewriteUrl(Some(url), options, httpHostUrl) == Some(StrReplace(httpHostUrl, "", url))
  {
  }

  /** A string holding a truthy part is truthy. */
  lemma TruthyAround(before: string, middle: string, after: string)
    requires Truthy(middle)
    ensures Truthy(before + middle + after)
  {
    var s := before + middle + after;
    assert |s| == |before| + |middle| + |after|;
    if s == "0" {
      assert false;
    }
  }

  /** Without the host URL in it, `clear` leaves the header as it is. */
  lemma RewriteClearAbsent(url: string, options: UrlOptions, httpHostUrl: string)
    requires options.override == []
    requires !Contains(url, httpHostUrl)
    ensures RewriteUrl(Some(url), options, httpHostUrl) == Some(url)
  {
    StrReplaceAbsent(httpHostUrl, "", url);
  }

  /**
   * A non-empty override turns a truthy header into `path?query`: the path
   * has no scheme, host, query or fragment, the query is never empty, and
   * it is built from the merged parameters.
   */
  lemma RewriteOverride(url: string, options: UrlOptions, httpHostUrl: string)
    requires Truthy(url) && options.override != []
    ensures var cleared := if options.clear then StrReplace(httpHostUrl, "", url) else url;
            var path := UrlPath(cleared);
            var query := BuildQuery(MergedParams(cleared, options.override), options.separator);
      && RewriteUrl(Some(url), options, httpHostUrl) == Some(path + "?" + query)
      && '?' !in path && '#' !in path
      && query != ""
  {
    var cleared := if options.clear then StrReplace(httpHostUrl, "", url) else url;
    MergeNonEmpty(ParseQuery(UrlQuery(cleared)), options.override);
  }

  /** Merging a non-empty override never yields an empty array. */
  lemma MergeNonEmpty(a: Dict<string>, b: Dict<string>)
    requires b != []
    ensures |Merge(a, b)| > 0
  {
    var k := b[|b| - 1].0;
    MergeGet(a, b, k);
    assert Last(b, k).Some?;
    assert k in Keys(Merge(a, b));
  }

  /**
   * The merged parameters: the original keys in their order, then the new
   * override keys in override order; on a shared key the override wins.
   */
  lemma MergedParamsOrderAndPrecedence(url: string, override: Dict<string>, k: string)
    ensures var params := ParseQuery(UrlQuery(url));
      && Keys(MergedParams(url, override)) == Keys(params) + Appended(Keys(params), Keys(override))
      && Get(MergedParams(url, override), k)
         == if Last(override, k).Some? then Last(override, k) else Last(QueryPairs(UrlQuery(url)), k)
  {
    var params := ParseQuery(UrlQuery(url));
    MergeKeys(params, override);
    MergeGet(params, override, k);
  }

  /**
   * What `parseUrl()` returns: the URL, its path and its query parameters.
   * The path is null when `parse_url` reports none.
   */
  datatype ParsedUrl = ParsedUrl(url: string, path: Option<string>, params: Dict<string>)

  /**
   * `parseUrl($url)`. `parse_url` has no `path` entry for a non-empty URL
   * whose path part is empty (`https://h?x=1`, `?x=1`), so reading
   * `$parsed['path']` gives null; the empty URL has the path "".
   */
  function ParseUrl(url: string): (p: ParsedUrl)
    ensures p.url == url
    ensures p.path.None? <==> url != [] && UrlPath(url) == []
    ensures p.path.Some? ==> var path := p.path.value;
      && '?' !in path && '#' !in path
      && var s := BeforeQuery(url); |path| <= |s| && path == s[|s| - |path|..]
    ensures Unique(p.params)
    ensures forall k :: Get(p.params, k) == Last(QueryPairs(UrlQuery(url)), k)
    ensures Keys(p.params) == Appended([], Keys(QueryPairs(UrlQuery(url))))
  {
    ParsedUrl(url, ParsedPath(url), ParseQuery(UrlQuery(url)))
  }

  /** `$parsed['path']`: null for a non-empty URL with an empty path part. */
  function ParsedPath(url: string): (r: Option<string>)
    ensures r.None? <==> url != [] && UrlPath(url) == []
    ensures r.Some? ==> r.value == UrlPath(url)
  {
    var path := UrlPath(url);
    if url != [] && path == [] then None else Some(path)
  }

  /** `scheme://host` followed by a query or fragment has no path: `parseUrl` gives null. */
  lemma ParseUrlWithoutPath(scheme: string, host: string, rest: string)
    requires scheme != "" && ':' !in scheme && '/' !in scheme && '?' !in scheme && '#' !in scheme
    requires '/' !in host && '?' !in host && '#' !in host
    requires rest == [] || rest[0] == '?' || rest[0] == '#'
    ensures ParseUrl(scheme + "://" + host + rest).path == None
  {
    assert scheme + "://" + host + rest == scheme + "://" + host + "" + rest;
    UrlPathOfAbsolute(scheme, host, "", rest);
  }

  /** A bare `?query` has no path either. */
  lemma ParseUrlQueryOnly(query: string)
    ensures ParseUrl("?" + query).path == None
  {
    var u := "?" + query;
    assert BeforeQuery(u) == [];
  }

  /** A string without `c` is its own part before `c`. */
  lemma BeforeAbsent(s: string, c: char)
    requires c !in s
    ensures Before(s, c) == s
  {
  }

  /** `/path?query` parses to that path and the parameters of that query. */
  lemma ParseUrlOfRelative(path: string, query: string)
    requires path != [] && path[0] == '/' && !StartsWith(path, "//")
    requires '?' !in path && '#' !in path && '#' !in query
    ensures ParseUrl(path + "?" + query) == ParsedUrl(path + "?" + query, Some(path), ParseQuery(query))
  {
    var u := path + "?" + query;
    assert u == path + ("?" + query);
    UrlPathOfRelative(path, "?" + query);
    assert '#' !in u;
    BeforeAbsent(u, '#');
    AfterSplit(u, path, query, '?');
  }

  /** The result of `parseCurrentUrl()`: a parsed URL, or the `TypeError` a null URL raises. */
  datatype ParseOutcome = Parsed(parsed: ParsedUrl) | NullUrlError

  /** Request-side access to the decoded headers of the `Htmx` module. */
  class HtmxRequest {
    const htmx: Htmx

    /** `wire('htmx')`, the module instance, is handed in. */
    constructor(htmx: Htmx)
      ensures this.htmx == htmx
    {
      this.htmx := htmx;
    }

    /** `boosted()`: the decoded header as it is, or null when the headers were never decoded. */
    function Boosted(): (r: Option<string>)
      reads this, htmx
      ensures "boosted" in htmx.requestHeaders ==> r == Some(htmx.requestHeaders["boosted"])
      ensures "boosted" !in htmx.requestHeaders ==> r.None?
    {
      htmx.GetRequestHeader("boosted")
    }

    /** `historyRestoreRequest()`: the decoded header as it is, or null when the headers were never decoded. */
    function HistoryRestoreRequest(): (r: Option<string>)
      reads this, htmx
      ensures "historyRestoreRequest" in htmx.requestHeaders ==> r == Some(htmx.requestHeaders["historyRestoreRequest"])
      ensures "historyRestoreRequest" !in htmx.requestHeaders ==> r.None?
    {
      htmx.GetRequestHeader("historyRestoreRequest")
    }

    /** `prompt()`: the decoded header as it is, or null when the headers were never decoded. */
    function Prompt(): (r: Option<string>)
      reads this, htmx
      ensures "prompt" in htmx.requestHeaders ==> r == Some(htmx.requestHeaders["prompt"])
      ensures "prompt" !in htmx.requestHeaders ==> r.None?
    {
      htmx.GetRequestHeader("prompt")
    }

    /** `request()`: the decoded header as it is, or null when the headers were never decoded. */
    function Request(): (r: Option<string>)
      reads this, htmx
      ensures "request" in htmx.requestHeaders ==> r == Some(htmx.requestHeaders["request"])
      ensures "request" !in htmx.requestHeaders ==> r.None?
    {
      htmx.GetRequestHeader("request")
    }

    /** `target()`: the decoded header as it is, or null when the headers were never decoded. */
    function Target(): (r: Option<string>)
      reads this, htmx
      ensures "target" in htmx.requestHeaders ==> r == Some(htmx.requestHeaders["target"])
      ensures "target" !in htmx.requestHeaders ==> r.None?
    {
      htmx.GetRequestHeader("target")
    }

    /** `triggerName()`: the decoded header as it is, or null when the headers were never decoded. */
    function TriggerName(): (r: Option<string>)
      reads this, htmx
      ensures "triggerName" in htmx.requestHeaders ==> r == Some(htmx.requestHeaders["triggerName"])
      ensures "triggerName" !in htmx.requestHeaders ==> r.None?
    {
      htmx.GetRequestHeader("triggerName")
    }

    /** `trigger()`: the decoded header as it is, or null when the headers were never decoded. */
    function Trigger(): (r: Option<string>)
      reads this, htmx
      ensures "trigger" in htmx.requestHeaders ==> r == Some(htmx.requestHeaders["trigger"])
      ensures "trigger" !in htmx.requestHeaders ==> r.None?
    {
      htmx.GetRequestHeader("trigger")
    }

    /** `currentURL($options)`; `httpHostUrl` is `$input->httpHostUrl()`. */
    function CurrentURL(options: UrlOptions, httpHostUrl: string): (r: Option<string>)
      reads this, htmx
      ensures r.None? <==> "currentURL" !in htmx.requestHeaders
      ensures r.Some? && !Truthy(htmx.requestHeaders["currentURL"]) ==> r.value == htmx.requestHeaders["currentURL"]
    {
      RewriteUrl(htmx.GetRequestHeader("currentURL"), options, httpHostUrl)
    }

    /** `parseCurrentUrl($options)`: a null current URL cannot be passed to `parseUrl(string $url)`. */
    function ParseCurrentUrl(options: UrlOptions, httpHostUrl: string): (r: ParseOutcome)
      reads this, htmx
      ensures r.NullUrlError? <==> "currentURL" !in htmx.requestHeaders
      ensures r.Parsed? ==> r.parsed == ParseUrl(CurrentURL(options, httpHostUrl).value)
    {
      match CurrentURL(options, httpHostUrl)
      case None => NullUrlError
      case Some(url) => Parsed(ParseUrl(url))
    }
  }

  /**
   * Once the module has decoded the headers, every accessor returns its
   * own `$_SERVER` value verbatim (or "" when it is absent).
   */
  lemma AccessorsAfterDecoding(request: HtmxRequest, server: FunctionsApi.Server)
    requires DecodedFrom(request.htmx.requestHeaders, server)
    ensures request.Boosted() == Some(ServerValue(server, "BOOSTED"))
    ensures request.HistoryRestoreRequest() == Some(ServerValue(server, "HISTORY_RESTORE_REQUEST"))
    ensures request.Prompt() == Some(ServerValue(server, "PROMPT"))
    ensures request.Request() == Some(ServerValue(server, "REQUEST"))
    ensures request.Target() == Some(ServerValue(server, "TARGET"))
    ensures request.TriggerName() == Some(ServerValue(server, "TRIGGER_NAME"))
    ensures request.Trigger() == Some(ServerValue(server, "TRIGGER"))
    ensures request.CurrentURL(DefaultUrlOptions, "") == Some(ServerValue(server, "CURRENT_URL"))
  {
    DecodedHeaderIgnoresDefault(request.htmx, server, None);
    assert RequestHeaderNames[0] == ("boosted", "BOOSTED");
    assert RequestHeaderNames[1] == ("currentURL", "CURRENT_URL");
    assert RequestHeaderNames[2] == ("historyRestoreRequest", "HISTORY_RESTORE_REQUEST");
    assert RequestHeaderNames[3] == ("prompt", "PROMPT");
    assert RequestHeaderNames[4] == ("request", "REQUEST");
    assert RequestHeaderNames[5] == ("target", "TARGET");
    assert RequestHeaderNames[6] == ("triggerName", "TRIGGER_NAME");
    assert RequestHeaderNames[7] == ("trigger", "TRIGGER");
  }
}
