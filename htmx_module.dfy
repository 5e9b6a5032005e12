/**
 * The `Htmx` ProcessWire module (Htmx.module.php): it decodes the htmx
 * request headers once per request, plans the script assets (htmx core,
 * extensions, client-side template engines, the debug extension) and
 * injects them into rendered pages.
 */
module HtmxModule {
  import opened Wrappers
  import opened Php
  import opened FunctionsApi

  /** The eight request headers: logical name and the suffix of the `$_SERVER` variable `HTTP_HX_<suffix>`. */
  const RequestHeaderNames: seq<(string, string)> := [
    ("boosted", "BOOSTED"),
    ("currentURL", "CURRENT_URL"),
    ("historyRestoreRequest", "HISTORY_RESTORE_REQUEST"),
    ("prompt", "PROMPT"),
    ("request", "REQUEST"),
    ("target", "TARGET"),
    ("triggerName", "TRIGGER_NAME"),
    ("trigger", "TRIGGER")
  ]

  /** `$_SERVER["HTTP_HX_{$suffix}"] ?? ''`. */
  function ServerValue(server: Server, suffix: string): string {
    Lookup(server, "HTTP_HX_" + suffix)
  }

  /** The eight logical header names. */
  function LogicalNames(): set<string> {
    set j | 0 <= j < |RequestHeaderNames| :: RequestHeaderNames[j].0
  }

  /** Every logical name is present and holds its own `HTTP_HX_*` variable, or "" when that is absent. */
  predicate DecodedFrom(headers: map<string, string>, server: Server) {
    && LogicalNames() <= headers.Keys
    && forall j :: 0 <= j < |RequestHeaderNames| ==>
         headers[RequestHeaderNames[j].0] == ServerValue(server, RequestHeaderNames[j].1)
  }

  /** The logical names of the first `i` entries of a header table. */
  ghost function NamesBefore(names: seq<(string, string)>, i: nat): set<string>
    requires i <= |names|
  {
    set j | 0 <= j < i :: names[j].0
  }

  lemma NamesBeforeStep(names: seq<(string, string)>, i: nat)
    requires i < |names|
    ensures NamesBefore(names, i + 1) == NamesBefore(names, i) + {names[i].0}
  {
  }

  lemma RequestHeaderNamesDistinct()
    ensures DistinctNames(RequestHeaderNames)
    ensures NamesBefore(RequestHeaderNames, |RequestHeaderNames|) == LogicalNames()
  {
  }

  predicate DistinctNames(names: seq<(string, string)>) {
    forall i, j :: 0 <= i < j < |names| ==> names[i].0 != names[j].0
  }

  /** `$this->className()`: the key of the module's directory in `$config->paths` and `$config->urls`. */
  const ClassName := "Htmx"

  /** The jsDelivr CDN root every CDN script lives under. */
  const CdnRoot := "https://cdn.jsdelivr.net/npm/"
  /** htmx 1.9.6 on the CDN, and the pinned template engines. */
  const CdnDist := CdnRoot + "htmx.org@1.9.6/dist/"
  const NunjucksCdn := CdnRoot + "nunjucks@3.2.4/browser/nunjucks.min.js"
  const MustacheCdn := CdnRoot + "mustache@4.2.0/mustache.min.js"
  const HandlebarsCdn := CdnRoot + "handlebars@4.7.8/dist/cjs/handlebars.min.js"

  /** The extension that brings in the template engines. */
  const ClientSideTemplates := "client-side-templates"

  /** `$config->debug ? '' : '.min'`. */
  function Minified(debug: bool): string {
    if debug then "" else ".min"
  }

  /** A file under the module's own directory: `hxGetAssetUrl($this->className(), $filename)`. */
  function LocalAsset(config: Config, files: Files, filename: string): string {
    HxGetAssetUrl(config, files, ClassName, filename, false)
  }

  /** The htmx core script. */
  function CoreUrl(useService: bool, config: Config, files: Files): string {
    if useService then CdnDist + "htmx" + Minified(config.debug) + ".js"
    else LocalAsset(config, files, "resources/assets/js/htmx" + Minified(config.debug) + ".js")
  }

  /** The script of one htmx extension. */
  function ExtensionUrl(useService: bool, config: Config, files: Files, extension: string): string {
    if useService then CdnDist + "ext/" + extension + ".js"
    else LocalAsset(config, files, "resources/assets/js/ext/" + extension + ".js")
  }

  /** One script per extension, in the configured order. */
  function ExtensionUrls(useService: bool, config: Config, files: Files, extensions: seq<string>): seq<string> {
    seq(|extensions|, i requires 0 <= i < |extensions| => ExtensionUrl(useService, config, files, extensions[i]))
  }

  /** The template engine scripts are loaded when `client-side-templates` is on and some engine is chosen. */
  predicate TemplatesEnabled(extensions: seq<string>, engines: seq<string>) {
    ClientSideTemplates in extensions && engines != []
  }

  /** Nunjucks, then Mustache (CDN or local), then Handlebars, which always comes from the CDN. */
  function EngineUrls(useService: bool, config: Config, files: Files, engines: seq<string>): seq<string> {
    var min := Minified(config.debug);
    var nunjucks := if useService then NunjucksCdn else LocalAsset(config, files, "resources/assets/js/nunjucks" + min + ".js");
    var mustache := if useService then MustacheCdn else LocalAsset(config, files, "resources/assets/js/mustache" + min + ".js");
    (if "nunjucks" in engines then [nunjucks] else [])
      + (if "mustache" in engines then [mustache] else [])
      + (if "handlebars" in engines then [HandlebarsCdn] else [])
  }

  /** The debug extension. */
  function DebugUrl(useService: bool, config: Config, files: Files): string {
    if useService then CdnDist + "ext/debug.js"
    else LocalAsset(config, files, "resources/assets/js/ext/debug.js")
  }

  /** How many of the three engines are chosen. */
  function EngineCount(engines: seq<string>): nat {
    (if "nunjucks" in engines then 1 else 0)
      + (if "mustache" in engines then 1 else 0)
      + (if "handlebars" in engines then 1 else 0)
  }

  /** The engine scripts: one per chosen engine, nunjucks before mustache before handlebars. */
  lemma EngineUrlsShape(useService: bool, config: Config, files: Files, engines: seq<string>)
    ensures var urls := EngineUrls(useService, config, files, engines);
      && |urls| == EngineCount(engines)
      && ("handlebars" in engines ==> urls[|urls| - 1] == HandlebarsCdn)
      && ("nunjucks" in engines ==> urls[0] == if useService then NunjucksCdn
                                               else LocalAsset(config, files, "resources/assets/js/nunjucks" + Minified(config.debug) + ".js"))
      && ("mustache" in engines ==> urls[if "nunjucks" in engines then 1 else 0]
                                    == if useService then MustacheCdn
                                       else LocalAsset(config, files, "resources/assets/js/mustache" + Minified(config.debug) + ".js"))
  {
  }

  /** How many engine scripts the plan carries. */
  function EnginePart(extensions: seq<string>, engines: seq<string>): nat {
    if TemplatesEnabled(extensions, engines) then EngineCount(engines) else 0
  }

  /** The asset list `getAssets()` returns, given the effective `useService()` flag: the core script first. */
  function AssetPlan(useService: bool, config: Config, files: Files, extensions: seq<string>, engines: seq<string>): (plan: seq<string>)
    ensures |plan| >= 1 + |extensions| && plan[0] == CoreUrl(useService, config, files)
  {
    [CoreUrl(useService, config, files)]
      + ExtensionUrls(useService, config, files, extensions)
      + (if TemplatesEnabled(extensions, engines) then EngineUrls(useService, config, files, engines) else [])
      + (if config.debug then [DebugUrl(useService, config, files)] else [])
  }

  /**
   * The plan is the core, then one script per extension in the configured
   * order, then the engine scripts exactly when templates are enabled, and
   * the debug extension last exactly when debug is on.
   */
  lemma AssetPlanShape(useService: bool, config: Config, files: Files, extensions: seq<string>, engines: seq<string>)
    ensures var plan := AssetPlan(useService, config, files, extensions, engines);
      var e := 1 + |extensions| + EnginePart(extensions, engines);
      && |plan| == e + (if config.debug then 1 else 0)
      && (forall i :: 0 <= i < |extensions| ==> plan[1 + i] == ExtensionUrl(useService, config, files, extensions[i]))
      && plan[1 + |extensions|..e] == (if TemplatesEnabled(extensions, engines) then EngineUrls(useService, config, files, engines) else [])
      && plan[e..] == (if config.debug then [DebugUrl(useService, config, files)] else [])
  {
    EngineUrlsShape(useService, config, files, engines);
  }

  /** A URL under the CDN root. */
  predicate FromCdn(url: string) {
    StartsWith(url, CdnRoot)
  }

  /** Every fixed CDN script is under the CDN root, and so is anything under the htmx distribution. */
  lemma CdnConstants(tail: string)
    ensures FromCdn(CdnDist + tail)
    ensures FromCdn(NunjucksCdn) && FromCdn(MustacheCdn) && FromCdn(HandlebarsCdn)
  {
    assert StartsWith(CdnRoot, CdnRoot);
    StartsWithAppend(CdnRoot, "htmx.org@1.9.6/dist/", CdnRoot);
    StartsWithAppend(CdnDist, tail, CdnRoot);
    StartsWithAppend(CdnRoot, "nunjucks@3.2.4/browser/nunjucks.min.js", CdnRoot);
    StartsWithAppend(CdnRoot, "mustache@4.2.0/mustache.min.js", CdnRoot);
    StartsWithAppend(CdnRoot, "handlebars@4.7.8/dist/cjs/handlebars.min.js", CdnRoot);
  }

  /** With the CDN on, every script of the plan comes from the CDN. */
  lemma CdnPlanIsAllCdn(config: Config, files: Files, extensions: seq<string>, engines: seq<string>)
    ensures forall url :: url in AssetPlan(true, config, files, extensions, engines) ==> FromCdn(url)
  {
    CdnConstants("htmx" + Minified(config.debug) + ".js");
    assert CdnDist + "htmx" + Minified(config.debug) + ".js" == CdnDist + ("htmx" + Minified(config.debug) + ".js");
    CdnConstants("ext/debug.js");
    var extensionUrls := ExtensionUrls(true, config, files, extensions);
    forall i | 0 <= i < |extensions|
      ensures FromCdn(extensionUrls[i])
    {
      CdnConstants("ext/" + extensions[i] + ".js");
      assert extensionUrls[i] == CdnDist + ("ext/" + extensions[i] + ".js");
    }
    assert forall url :: url in extensionUrls ==> FromCdn(url);
  }

  /** Handlebars comes from the CDN whether or not the CDN is on. */
  lemma HandlebarsAlwaysCdn(useService: bool, config: Config, files: Files, extensions: seq<string>, engines: seq<string>)
    requires TemplatesEnabled(extensions, engines) && "handlebars" in engines
    ensures HandlebarsCdn in AssetPlan(useService, config, files, extensions, engines)
  {
    var plan := AssetPlan(useService, config, files, extensions, engines);
    AssetPlanShape(useService, config, files, extensions, engines);
    EngineUrlsShape(useService, config, files, engines);
    var e := 1 + |extensions| + EngineCount(engines);
    assert plan[e - 1] == HandlebarsCdn;
  }

  /** The `<script>` line the render hook writes for one asset. */
  function ScriptTag(url: string): string {
    "\n<script src=\"" + url + "\"></script>"
  }

  /** The script lines for a list of assets, in list order. */
  function ScriptTags(urls: seq<string>): string
    decreases |urls|
  {
    if urls == [] then ""
    else ScriptTags(urls[..|urls| - 1]) + ScriptTag(urls[|urls| - 1])
  }

  const HeadClose := "</head>"

  /** What the frontend render hook makes of a page: the script block and a newline before every `</head>`. */
  function Injected(html: string, assets: seq<string>): (r: string)
    ensures !Contains(html, HeadClose) ==> r == html
  {
    var block := ScriptTags(assets) + "\n" + HeadClose;
    var r := StrReplace(HeadClose, block, html);
    assert !Contains(html, HeadClose) ==> r == html by {
      if !Contains(html, HeadClose) {
        StrReplaceAbsent(HeadClose, block, html);
      }
    }
    r
  }

  /**
   * At the first `</head>` the block goes in just before it, and the rest
   * of the page is treated the same way, so every `</head>` gets the block.
   */
  lemma InjectedAtHead(before: string, after: string, assets: seq<string>)
    requires NoneBefore(before + HeadClose + after, HeadClose, |before|)
    ensures Injected(before + HeadClose + after, assets)
         == before + ScriptTags(assets) + "\n" + HeadClose + Injected(after, assets)
  {
    StrReplaceFirst(HeadClose, ScriptTags(assets) + "\n" + HeadClose, before, after);
  }

  /** What the template-clearing hook leaves in `$config` for one page render. */
  datatype RenderSettings = RenderSettings(htmx: bool, prependTemplateFile: string, appendTemplateFile: string)

  /** The module: its configuration and the request headers it decoded. */
  class Htmx {
    var loadAdminAssets: bool
    var loadFrontendAssets: bool
    var useService: bool
    var prependTemplates: seq<string>
    var appendTemplates: seq<string>
    var extensions: seq<string>
    var templateEngines: seq<string>
    var requestHeaders: map<string, string>

    /** The defaults: both asset kinds on, the CDN off, nothing else chosen, no headers yet. */
    constructor()
      ensures loadAdminAssets && loadFrontendAssets && !useService
      ensures prependTemplates == [] && appendTemplates == []
      ensures extensions == [] && templateEngines == []
      ensures requestHeaders == map[]
    {
      loadAdminAssets := true;
      loadFrontendAssets := true;
      useService := false;
      prependTemplates := [];
      appendTemplates := [];
      extensions := [];
      templateEngines := [];
      requestHeaders := map[];
    }

    /** `setRequestHeaders()`: stores each of the eight headers under its logical name. */
    method SetRequestHeaders(server: Server)
      modifies this`requestHeaders
      ensures requestHeaders.Keys == old(requestHeaders).Keys + LogicalNames()
      ensures DecodedFrom(requestHeaders, server)
      ensures forall k :: k in old(requestHeaders) && k !in LogicalNames() ==> requestHeaders[k] == old(requestHeaders)[k]
    {
      RequestHeaderNamesDistinct();
      StoreHeaders(server, RequestHeaderNames);
    }

    /** The loop of `setRequestHeaders()` over a table of distinct logical names. */
    method StoreHeaders(server: Server, names: seq<(string, string)>)
      requires DistinctNames(names)
      modifies this`requestHeaders
      ensures requestHeaders.Keys == old(requestHeaders).Keys + NamesBefore(names, |names|)
      ensures forall j :: 0 <= j < |names| ==> requestHeaders[names[j].0] == ServerValue(server, names[j].1)
      ensures forall k :: k in old(requestHeaders) && k !in NamesBefore(names, |names|) ==>
                requestHeaders[k] == old(requestHeaders)[k]
    {
      var stored := requestHeaders;
      for i := 0 to |names|
        invariant stored.Keys == old(requestHeaders).Keys + NamesBefore(names, i)
        invariant forall j :: 0 <= j < i ==> stored[names[j].0] == ServerValue(server, names[j].1)
        invariant forall k :: k in old(requestHeaders) && k !in NamesBefore(names, i) ==>
                    stored[k] == old(requestHeaders)[k]
      {
        var (key, suffix) := names[i];
        NamesBeforeStep(names, i);
        assert key !in NamesBefore(names, i);
        stored := stored[key := ServerValue(server, suffix)];
      }
      requestHeaders := stored;
    }

    /** `getRequestHeader($name, $default)`: the decoded header, or `$default` for any other name. */
    function GetRequestHeader(name: string, default: Option<string> := None): (r: Option<string>)
      reads this
      ensures name in requestHeaders ==> r == Some(requestHeaders[name])
      ensures name !in requestHeaders ==> r == default
    {
      if name in requestHeaders then Some(requestHeaders[name]) else default
    }

    /** `useService()`: the CDN is never used in debug mode, whatever the setting. */
    function UseService(debug: bool): (r: bool)
      reads this
      ensures debug ==> !r
      ensures !debug ==> r == useService
    {
      if debug then false else useService
    }

    /** `getAssets()`: the ordered list of script URLs. */
    method GetAssets(config: Config, files: Files) returns (assets: seq<string>)
      ensures assets == AssetPlan(UseService(config.debug), config, files, extensions, templateEngines)
    {
      var useService := UseService(config.debug);
      var minified := if config.debug then "" else ".min";
      var core := CoreAsset(useService, minified, config, files);
      assets := [core];
      var extensionAssets := ExtensionAssets(useService, config, files, extensions);
      assets := assets + extensionAssets;
      if ClientSideTemplates in extensions && templateEngines != [] {
        var engineAssets := TemplateEngineAssets(useService, minified, config, files, templateEngines);
        assets := assets + engineAssets;
      }
      if config.debug {
        var debugAsset := DebugAsset(useService, config, files);
        assets := assets + [debugAsset];
      }
    }

    /** The htmx core script that `getAssets()` puts first. */
    static method CoreAsset(useService: bool, minified: string, config: Config, files: Files) returns (url: string)
      requires minified == Minified(config.debug)
      ensures url == CoreUrl(useService, config, files)
    {
      if useService {
        url := CdnDist + "htmx" + minified + ".js";
      } else {
        url := HxGetAssetUrl(config, files, ClassName, "resources/assets/js/htmx" + minified + ".js", false);
      }
    }

    /** The extension loop of `getAssets()`. */
    static method ExtensionAssets(useService: bool, config: Config, files: Files, extensions: seq<string>)
      returns (urls: seq<string>)
      ensures urls == ExtensionUrls(useService, config, files, extensions)
    {
      urls := [];
      for i := 0 to |extensions|
        invariant urls == ExtensionUrls(useService, config, files, extensions[..i])
      {
        var extension := extensions[i];
        if useService {
          urls := urls + [CdnDist + "ext/" + extension + ".js"];
        } else {
          urls := urls + [HxGetAssetUrl(config, files, ClassName, "resources/assets/js/ext/" + extension + ".js", false)];
        }
      }
      assert extensions[..|extensions|] == extensions;
    }

    /** The debug extension that `getAssets()` adds last in debug mode. */
    static method DebugAsset(useService: bool, config: Config, files: Files) returns (url: string)
      ensures url == DebugUrl(useService, config, files)
    {
      if useService {
        url := CdnDist + "ext/debug.js";
      } else {
        url := HxGetAssetUrl(config, files, ClassName, "resources/assets/js/ext/debug.js", false);
      }
    }

    /** The template engine block of `getAssets()`, run when `client-side-templates` is on and some engine is chosen. */
    static method TemplateEngineAssets(useService: bool, minified: string, config: Config, files: Files, engines: seq<string>)
      returns (engineAssets: seq<string>)
      requires minified == Minified(config.debug)
      ensures engineAssets == EngineUrls(useService, config, files, engines)
    {
      engineAssets := [];
      if useService {
        if "nunjucks" in engines {
          engineAssets := engineAssets + [NunjucksCdn];
        }
        if "mustache" in engines {
          engineAssets := engineAssets + [MustacheCdn];
        }
      } else {
        if "nunjucks" in engines {
          engineAssets := engineAssets + [HxGetAssetUrl(config, files, ClassName, "resources/assets/js/nunjucks" + minified + ".js", false)];
        }
        if "mustache" in engines {
          engineAssets := engineAssets + [HxGetAssetUrl(config, files, ClassName, "resources/assets/js/mustache" + minified + ".js", false)];
        }
      }
      if "handlebars" in engines {
        engineAssets := engineAssets + [HandlebarsCdn];
      }
    }

    /** The loop of the frontend render hook that builds one `<script>` line per asset. */
    static method ScriptBlock(assets: seq<string>) returns (replace: string)
      ensures replace == ScriptTags(assets)
    {
      replace := "";
      for i := 0 to |assets|
        invariant replace == ScriptTags(assets[..i])
      {
        replace := replace + "\n<script src=\"" + assets[i] + "\"></script>";
        assert assets[..i + 1][..i] == assets[..i];
      }
      assert assets[..|assets|] == assets;
    }

    /**
     * `init()`: decodes the request headers, and in the admin, when admin
     * assets are on, hands the asset list to `$config->scripts`.
     */
    method Init(server: Server, config: Config, files: Files) returns (adminScripts: seq<string>)
      modifies this`requestHeaders
      ensures requestHeaders.Keys == old(requestHeaders).Keys + LogicalNames()
      ensures DecodedFrom(requestHeaders, server)
      ensures forall k :: k in old(requestHeaders) && k !in LogicalNames() ==> requestHeaders[k] == old(requestHeaders)[k]
      ensures adminScripts == if HxInAdmin(server, config) && loadAdminAssets
                              then AssetPlan(UseService(config.debug), config, files, extensions, templateEngines)
                              else []
    {
      SetRequestHeaders(server);
      if HxInAdmin(server, config) && loadAdminAssets {
        adminScripts := GetAssets(config, files);
      } else {
        adminScripts := [];
      }
    }

    /**
     * The hook before `Page::render`: `$config->htmx` is whether the decoded
     * `request` header is exactly "true"; for an htmx request (by
     * `isHtmxRequest()`) on a listed template, the prepend and append
     * template files are cleared.
     */
    function BeforePageRender(template: string, server: Server, settings: RenderSettings): (r: RenderSettings)
      reads this
      ensures r.htmx <==> GetRequestHeader("request") == Some("true")
      ensures r.prependTemplateFile == "" || r.prependTemplateFile == settings.prependTemplateFile
      ensures r.prependTemplateFile != settings.prependTemplateFile <==>
                IsHtmxRequest(server) && template in prependTemplates && settings.prependTemplateFile != ""
      ensures r.appendTemplateFile == "" || r.appendTemplateFile == settings.appendTemplateFile
      ensures r.appendTemplateFile != settings.appendTemplateFile <==>
                IsHtmxRequest(server) && template in appendTemplates && settings.appendTemplateFile != ""
    {
      var htmx := GetRequestHeader("request") == Some("true");
      if IsHtmxRequest(server) then
        RenderSettings(
          htmx,
          if template in prependTemplates then "" else settings.prependTemplateFile,
          if template in appendTemplates then "" else settings.appendTemplateFile)
      else
        settings.(htmx := htmx)
    }

    /**
     * The hook after `Page::render`, installed by `ready()` outside the
     * admin when frontend assets are on: the asset block goes before every
     * `</head>` of the rendered page.
     */
    method AfterPageRender(html: string, server: Server, config: Config, files: Files) returns (out: string)
      ensures !HxInAdmin(server, config) && loadFrontendAssets ==>
                out == Injected(html, AssetPlan(UseService(config.debug), config, files, extensions, templateEngines))
      ensures HxInAdmin(server, config) || !loadFrontendAssets ==> out == html
    {
      if !HxInAdmin(server, config) && loadFrontendAssets {
        var assets := GetAssets(config, files);
        var replace := ScriptBlock(assets);
        out := StrReplace(HeadClose, replace + "\n" + HeadClose, html);
      } else {
        out := html;
      }
    }
  }

  /**
   * Once the headers are decoded, each of the eight names yields its
   * `$_SERVER` value (or "") and never the caller's default.
   */
  lemma DecodedHeaderIgnoresDefault(h: Htmx, server: Server, default: Option<string>)
    requires DecodedFrom(h.requestHeaders, server)
    ensures forall j :: 0 <= j < |RequestHeaderNames| ==>
              h.GetRequestHeader(RequestHeaderNames[j].0, default) == Some(ServerValue(server, RequestHeaderNames[j].1))
  {
    forall j | 0 <= j < |RequestHeaderNames|
      ensures h.GetRequestHeader(RequestHeaderNames[j].0, default) == Some(ServerValue(server, RequestHeaderNames[j].1))
    {
      assert RequestHeaderNames[j].0 in LogicalNames();
    }
  }

  /**
   * After decoding, `$config->htmx` is set exactly when `HTTP_HX_REQUEST`
   * is "true", and such a request is always an htmx request; the converse
   * fails: with "false" the flag is off but the template files are still
   * cleared.
   */
  lemma HtmxFlagAndClearing(h: Htmx, template: string, server: Server, settings: RenderSettings)
    requires DecodedFrom(h.requestHeaders, server)
    ensures h.BeforePageRender(template, server, settings).htmx <==> ServerValue(server, "REQUEST") == "true"
    ensures h.BeforePageRender(template, server, settings).htmx ==> IsHtmxRequest(server)
    ensures server == map[HxRequestVar := "false"] && template in h.prependTemplates && settings.prependTemplateFile != "" ==>
              !h.BeforePageRender(template, server, settings).htmx
              && h.BeforePageRender(template, server, settings).prependTemplateFile == ""
  {
    DecodedHeaderIgnoresDefault(h, server, None);
    assert RequestHeaderNames[4] == ("request", "REQUEST");
    assert HxRequestVar == "HTTP_HX_" + "REQUEST";
  }
}
