# ProcessWire htmx adapter: a verified model

This project models the core of the ProcessWire `Htmx` module. The module connects ProcessWire pages to htmx 1.9.6.

- **Request side.** Once per request it decodes the eight `HX-*` request headers from `$_SERVER`. It classifies the request: is it an htmx request, and is it inside the admin?
- **Page rendering.** It clears the prepend/append template files for selected templates on htmx requests. It plans the script assets: the htmx core, the extensions, the client-side template engines and the debug extension, each from the CDN or from the module's own files. Outside the admin, and only when frontend assets are on, it injects those scripts before `</head>` of every rendered page. Inside the admin it hands the same plan to the admin script list when admin assets are on.
- **Helpers.** `HtmxRequest` reads the decoded headers and rewrites the `HX-Current-URL` value. `HtmxResponse` builds a response from chainable `HX-*` directive setters and negotiates `Content-Type`. The procedural `hx*` functions build URLs and send responses.

Modules:

| file | module | what it holds |
|---|---|---|
| `wrappers.dfy` | `Wrappers` | `Option` |
| `dict.dfy` | `Dict` | PHP arrays with string keys as ordered pair lists: `$a[$k] = $v` (`Set`), `$a[$k] ?? null` (`Get`), `array_merge` (`Merge`) |
| `php.dfy` | `Php` | the PHP built-ins the code relies on: truthiness, `str_replace`, `trim`/`ltrim`/`rtrim`, `strtok`, `ucfirst`, decimal text of integers, and the PHP values (`null`, string, array) that reach `json_encode` |
| `output.dfy` | `Output` | what a response sends: status, header lines and body, or the error raised and the header lines already sent |
| `functions_api.dfy` | `FunctionsApi` | FunctionsAPI.php |
| `htmx_module.dfy` | `HtmxModule` | Htmx.module.php: the class `Htmx`, the asset plan, script injection, the render hooks |
| `htmx_request.dfy` | `Request` | src/HtmxRequest.php: URL splitting, query parsing and building, `currentURL`, the class `HtmxRequest` |
| `htmx_response.dfy` | `Response` | src/HtmxResponse.php: the class `HtmxResponse` and its `Content-Type` negotiation |

Some of the PHP globals and foreign calls become parameters:

- `$_SERVER` is a `Server` map.
- `$config` is a `Config` with `debug`, `paths` and `urls`.
- `file_exists`/`filemtime` form a map from path to modification time (`Files`).
- `json_encode`/`json_decode` form a `JsonCodec`: an encoder, and a predicate "decodes to an array or object".
- `$input->httpHostUrl()` is a string argument.
- The 404 page is the `PageRef` that `$pages->get` returned.

`header()`, `http_response_code()`, `echo` and `exit` become a returned `Outcome`. `$session->redirect()` becomes a returned `Effect`.

Where the code and its description differ, the model follows the code:

- Template engines are loaded in the order nunjucks, mustache, handlebars.
- The `clear` option of `currentURL` removes the host URL wherever it occurs, not only as a prefix.
- There is no path-segment-scoped protocol check.
- Rendering a response twice is not an error, because `render()` ends the request.

In PHP 8, `HtmxResponse::setHeaders` raises a `TypeError` when the output is an empty array and no `Content-Type` was set. An empty array is falsy, so it reaches `json_decode`, which only takes strings. The model keeps this as a `TypeError` outcome.

## Model

| member | source | states |
|---|---|---|
| Dict.Set | src/HtmxResponse.php:24 | `$a[$k] = $v`: afterwards `$k` holds `$v` and every other key keeps its value. An existing key keeps its place and a new key is appended. Keys stay distinct. |
| Dict.Get | src/HtmxResponse.php:158 | `$a[$k] ?? null` finds a value exactly when the key is present. |
| Dict.Merge | FunctionsAPI.php:167-170 | `array_merge($a, $b)` starts with the keys of `$a`, in order. |
| Dict.SetTwice | src/HtmxResponse.php:152 | Writing a key twice is the same as writing it once with the second value. |
| Dict.MergeGet | FunctionsAPI.php:167-170 | After `array_merge($a, $b)`, a key holds its last value in `$b`, or its value in `$a` when `$b` lacks it. |
| Dict.MergeKeys | src/HtmxRequest.php:57 | `array_merge($a, $b)` keeps the keys of `$a` in order, then appends the new keys of `$b` in order of first occurrence. |
| Dict.MergeUnique | FunctionsAPI.php:167-170 | Merging two arrays with distinct keys yields distinct keys. |
| Dict.MergeIntoEmpty | src/HtmxRequest.php:29 | Assigning pairs with distinct keys into an empty array gives back exactly those pairs. |
| Php.StrReplaceAbsent | src/HtmxRequest.php:51 | `str_replace` returns a subject that does not contain the search string unchanged. |
| Php.StrReplace | Htmx.module.php:134 | An empty search string, or a search string equal to its replacement, leaves the subject unchanged. |
| Php.StrReplaceFirst | Htmx.module.php:134 | `str_replace` keeps the text before the first occurrence, replaces that occurrence, and continues after it. So every occurrence is replaced, left to right. |
| Php.StrTok | FunctionsAPI.php:12 | `strtok($s, $c)` skips the leading delimiters and returns the text up to the next delimiter: never empty and free of `$c`. It returns false exactly when `$s` holds nothing but delimiters. Without a leading delimiter the token is the text before the first `$c`. |
| Php.Trim | FunctionsAPI.php:13 | `trim($s, $c)` is the slice of `$s` between the leading and the trailing runs of `$c`. Both dropped runs hold only `$c`, and neither end of the result is `$c`. |
| Php.LTrim | FunctionsAPI.php:19 | `ltrim($s, $c)` is a suffix of `$s` that does not start with `$c`. Everything dropped before it is `$c`. |
| Php.RTrim | FunctionsAPI.php:19 | `rtrim($s, $c)` is a prefix of `$s` that does not end with `$c`. Everything dropped after it is `$c`. |
| Php.TrimFalsy | FunctionsAPI.php:18-19 | A falsy admin URL (`""` or `"0"`) is left as it is, so trimming it only when truthy changes nothing. |
| Php.UcFirst | FunctionsAPI.php:67 | `ucfirst` upper-cases an ASCII lower-case first letter and changes nothing else. |
| Php.DecimalRoundTrip | FunctionsAPI.php:99 | The decimal text of a modification time reads back as that time. |
| Output.SendHeaders | FunctionsAPI.php:154-158 | One `Name: value` line per header, in array order. |
| Output.HeaderLine | FunctionsAPI.php:144-146 | The line is the name, then `": "`, then the value. |
| Output.EchoBody | FunctionsAPI.php:201-205 | An array is echoed as its `json_encode`, a string as it is, `null` as nothing. |
| Output.EffectiveStatus | src/HtmxResponse.php:175 | `http_response_code(0)` only reads the code, so the default 200 goes out. Any other code is sent as it is. |
| FunctionsApi.RequestPath | FunctionsAPI.php:11-13 | The request path is the part of the URI before the first `?` that follows the leading `?`s, trimmed of `/` at both ends. Without a leading `?` it is the part before the first `?`. It holds no `?` and does not start or end with `/`. |
| FunctionsApi.HxInAdmin | FunctionsAPI.php:10-22 | True exactly when the admin URL, with its outer slashes trimmed, is truthy (`Php.Truthy`: neither `""` nor `"0"`) and equals the first `/`-separated segment of the request path. A missing `$_SERVER` or `$config->urls` entry reads as `""` (`Lookup`). |
| FunctionsApi.IsHtmxRequest | FunctionsAPI.php:29-31 | True exactly when `HTTP_HX_REQUEST` is set and is neither `""` nor `"0"`. `"false"` counts as an htmx request. |
| FunctionsApi.HxGetPath | FunctionsAPI.php:42-46 | The configured path followed by `$path`, or `$path` alone when no truthy path is configured. |
| FunctionsApi.HxGetUrl | FunctionsAPI.php:57-73 | The URL ends with `$url`. It starts with the page's `url` or `httpUrl`, or with the configured URL of the name (`http` + ucfirst name when `$http` is set, built by `HttpName`; a missing entry reads as `""`). |
| FunctionsApi.HttpName | FunctionsAPI.php:66-68 | `'http' . ucfirst($name)` starts with `http`, is four characters longer than the name, and keeps every character of the name after the first. |
| FunctionsApi.HxGetAssetUrl | FunctionsAPI.php:84-104 | The base-URL prefix appears exactly when the base URL is truthy. `?v=<mtime>` is appended exactly when the base path is set and the file exists. Otherwise the result is the bare file name. |
| FunctionsApi.HxSessionRedirect | FunctionsAPI.php:113-123 | An htmx request emits exactly the header `HX-Redirect: url` and no session redirect. Any other request gets the session redirect and no header. |
| FunctionsApi.HxNotFoundRedirect | FunctionsAPI.php:130-135 | No action when the 404 page has id 0. Otherwise it redirects to the 404 page's `httpUrl`. |
| FunctionsApi.HxResponseOptions | FunctionsAPI.php:166-171 | `status` and `headers` come first, the other caller options follow, and a duplicate-free options array stays duplicate-free. |
| FunctionsApi.HxResponseOptionsValues | FunctionsAPI.php:166-171 | `status` and `headers` hold the caller's value when one is given, else 200 and `[]`. Every other caller option keeps its value. |
| FunctionsApi.StatusOption | FunctionsAPI.php:181-184 | The status handed to `http_response_code` is the caller's `status` option, or 200 without one. |
| FunctionsApi.PreparedHeaders | FunctionsAPI.php:181-183 | The headers sent always have `Content-Type` set to the variant's type, even over a caller value. An integer `headers` option yields nothing, because assigning a key into it throws. |
| FunctionsApi.Responded | FunctionsAPI.php:180-186 | The header lines sent are exactly those of the prepared headers, and none when the `headers` option is an integer. |
| FunctionsApi.PreparedStatus | FunctionsAPI.php:181-185 | An integer `headers` option throws "Cannot use a scalar value as an array" before anything is sent. An array `status` option throws a `TypeError` after the header lines went out. Otherwise the status sent is the caller's (200 for 0) or 200, and the body follows. |
| FunctionsApi.PreparedHeadersDefault | FunctionsAPI.php:181-183 | Without caller headers, only `Content-Type` is sent. |
| FunctionsApi.PreparedHeadersKept | FunctionsAPI.php:181-183 | Every caller header except `Content-Type` is sent with the caller's value. |
| FunctionsApi.HxResponseHTML | FunctionsAPI.php:180-187 | Produces exactly the outcome of the prepared headers with `text/html`, the status and the response string as body, including the two error paths. |
| FunctionsApi.HxResponseJSON | FunctionsAPI.php:196-207 | Produces exactly the outcome with `application/json`, and as body `json_encode` of an array or the raw value otherwise. |
| FunctionsApi.HxResponse | FunctionsAPI.php:215-221 | An array goes to the JSON variant and a string to the HTML variant. `null` fails the `string` parameter with a `TypeError` before anything is sent. |
| HtmxModule.Htmx.constructor | Htmx.module.php:51-60 | Defaults: both asset kinds on, CDN off, no templates, extensions or engines selected, no headers decoded. |
| HtmxModule.Htmx.SetRequestHeaders | Htmx.module.php:140-156 | Adds exactly the eight logical names. Each holds its `HTTP_HX_<NAME>` variable, or `""` when that is absent. Other entries are unchanged. |
| HtmxModule.Htmx.StoreHeaders | Htmx.module.php:153-155 | For any table of distinct logical names, each name ends up holding its own `HTTP_HX_<NAME>` variable, and entries for other names are unchanged. |
| HtmxModule.Htmx.GetRequestHeader | Htmx.module.php:158-161 | A stored header is returned as it is. Any other name gets the caller's default. |
| HtmxModule.DecodedHeaderIgnoresDefault | Htmx.module.php:153-161 | After decoding, each of the eight names yields its server value and never the caller's default. |
| HtmxModule.Htmx.UseService | Htmx.module.php:183-186 | The CDN is never used in debug mode. Otherwise the stored flag decides. |
| HtmxModule.Htmx.GetAssets | Htmx.module.php:198-257 | Returns exactly the asset plan for the effective CDN flag, the extensions and the engines. |
| HtmxModule.Htmx.CoreAsset | Htmx.module.php:212-216 | The htmx core script (`CoreUrl`): the CDN file, or the local asset with the `.min` suffix unless debug is on. |
| HtmxModule.Htmx.ExtensionAssets | Htmx.module.php:218-224 | The extension loop yields one script per extension in configured order, each from the CDN or the local files. |
| HtmxModule.Htmx.DebugAsset | Htmx.module.php:248-254 | The debug extension script from the CDN or the local files. |
| HtmxModule.Htmx.TemplateEngineAssets | Htmx.module.php:227-245 | The engine block yields the engine URLs of the plan (`EngineUrls`, whose order `EngineUrlsShape` states). |
| HtmxModule.EngineUrlsShape | Htmx.module.php:226-246 | One URL per chosen engine. Nunjucks comes first, then mustache, each from the CDN or the local files. Handlebars, always the CDN file, comes last. |
| HtmxModule.AssetPlan | Htmx.module.php:210-216 | The plan opens with the core script and has room for every extension after it. |
| HtmxModule.AssetPlanShape | Htmx.module.php:208-256 | The plan is one core URL, then one URL per extension in configured order, then the engine URLs exactly when `client-side-templates` is on and an engine is chosen, then the debug URL last exactly when debug is on. Its length is 1 + extensions + engines + debug. |
| HtmxModule.CdnPlanIsAllCdn | Htmx.module.php:212-250 | With the CDN on, every planned URL lies under the jsDelivr CDN root. |
| HtmxModule.HandlebarsAlwaysCdn | Htmx.module.php:243-245 | When templates are enabled and handlebars is chosen, the CDN handlebars URL is in the plan whether or not the CDN is on. |
| HtmxModule.Htmx.ScriptBlock | Htmx.module.php:128-132 | One `<script src="…">` line per asset, in list order (`ScriptTags`). |
| HtmxModule.Injected | Htmx.module.php:134 | A page without `</head>` is returned unchanged. |
| HtmxModule.InjectedAtHead | Htmx.module.php:134 | Before the first `</head>`, the script block and a newline are inserted. The rest of the page gets the same treatment, so every `</head>` gets the block. |
| HtmxModule.Htmx.AfterPageRender | Htmx.module.php:122-135 | Outside the admin with frontend assets on, the page gets the planned block before every `</head>`. Otherwise it is unchanged. |
| HtmxModule.Htmx.Init | Htmx.module.php:76-92 | Decodes the headers and leaves every other entry as it was. In the admin with admin assets on, it hands over the asset plan, and otherwise nothing. |
| HtmxModule.Htmx.BeforePageRender | Htmx.module.php:102-120 | `$config->htmx` holds exactly when the decoded `request` header is `"true"`. A template file is cleared exactly on an htmx request for a listed template. Nothing else changes. |
| HtmxModule.HtmxFlagAndClearing | Htmx.module.php:104-118 | After decoding, the `htmx` flag implies an htmx request. With `HTTP_HX_REQUEST: false`, the flag is off but the template file is still cleared. |
| Request.UrlPath | src/HtmxRequest.php:25-33 | The path is a tail of the URL before its query and fragment, so it holds no `?` and no `#`. |
| Request.UrlPathOfAbsolute | src/HtmxRequest.php:25-33 | `scheme://host/path?query#fragment` has the path `/path`, so scheme, host, query and fragment are dropped. |
| Request.UrlPathOfRelative | src/HtmxRequest.php:25-33 | A plain `/p` followed by a query or fragment has the path `/p`. |
| Request.UrlQuery | src/HtmxRequest.php:29 | The query is the text between the first `?` and the fragment. It is empty when there is no `?` before the fragment. |
| Request.Segments | src/HtmxRequest.php:29 | Splitting a query at `&` gives at least one segment, none holding `&`. |
| Request.SegmentsJoin | src/HtmxRequest.php:29 | Joining the segments with `&` gives back the query. |
| Request.QueryPairs | src/HtmxRequest.php:29 | The pairs read from a query have non-empty keys free of `&` and `=`; segments with an empty key are dropped. |
| Request.ParseQuery | src/HtmxRequest.php:27-29 | Keys are distinct and appear in the order of their first occurrence. A repeated key takes its last value. |
| Request.NoQueryNoParams | src/HtmxRequest.php:27-29 | A URL without a query has no parameters. |
| Request.BuildQuery | src/HtmxRequest.php:57 | The query is empty exactly when there are no parameters. |
| Request.BuildQueryJoins | src/HtmxRequest.php:57 | The query is the `k=v` text of every pair, in order, joined with the separator. |
| Request.QueryRoundTrip | src/HtmxRequest.php:29-57 | Parsing a query built with `&` from plain pairs with distinct keys gives back the pairs. |
| Request.RewriteUrl | src/HtmxRequest.php:38-64 | A missing header stays missing and a present one yields a URL. A truthy header (`Php.Truthy`) goes through the `clear` step (`Cleared`, lines 49-52) and then the `override` step (`Overridden`, lines 54-60); the Rewrite lemmas below pin each branch. |
| Request.RewriteDefault | src/HtmxRequest.php:38-64 | With the default options, the header comes back unchanged. |
| Request.RewriteFalsy | src/HtmxRequest.php:48 | A falsy header (`""` or `"0"`) comes back unchanged whatever the options. |
| Request.RewriteClearsEveryOccurrence | src/HtmxRequest.php:49-52 | `clear` drops the first occurrence of the host URL wherever it is, keeps the text before it, and clears the rest the same way. |
| Request.RewriteClearAbsent | src/HtmxRequest.php:49-52 | Without the host URL in it, `clear` changes nothing. |
| Request.RewriteClearOnly | src/HtmxRequest.php:48-52 | With `clear` on and no override, a truthy header loses every occurrence of the host URL and nothing else. |
| Request.RewriteOverride | src/HtmxRequest.php:54-60 | A non-empty override yields `path?query`, where the path has no query or fragment and the query is never empty. |
| Request.MergedParams | src/HtmxRequest.php:57 | The parameters of the URL keep their keys in order at the front, and a non-empty override gives a non-empty result. |
| Request.MergedParamsOrderAndPrecedence | src/HtmxRequest.php:57 | Original keys keep their order and new override keys follow in override order. On a shared key the override wins. |
| Request.ParseUrl | src/HtmxRequest.php:23-36 | Keeps the URL. The path is null exactly for a non-empty URL whose path part is empty, as `$parsed['path']` is for a URL `parse_url` gives no path. Otherwise the path is a tail of the URL before query and fragment. The parameters have distinct keys in first-occurrence order and follow last-wins parsing. |
| Request.ParseUrlOfRelative | src/HtmxRequest.php:23-36 | `/p?q` parses to the path `/p` and the parameters of `q`. |
| Request.ParseUrlWithoutPath | src/HtmxRequest.php:25-33 | `scheme://host` followed by a query or fragment parses with a null path. |
| Request.ParseUrlQueryOnly | src/HtmxRequest.php:25-33 | A bare `?query` parses with a null path. |
| Request.HtmxRequest.constructor | src/HtmxRequest.php:13-16 | The request reads the module instance it is given. |
| Request.HtmxRequest.Boosted | src/HtmxRequest.php:18-21 | The decoded `boosted` header as it is, or null before decoding. |
| Request.HtmxRequest.HistoryRestoreRequest | src/HtmxRequest.php:71-74 | The decoded `historyRestoreRequest` header as it is. |
| Request.HtmxRequest.Prompt | src/HtmxRequest.php:76-79 | The decoded `prompt` header as it is. |
| Request.HtmxRequest.Request | src/HtmxRequest.php:81-84 | The decoded `request` header as it is. |
| Request.HtmxRequest.Target | src/HtmxRequest.php:86-89 | The decoded `target` header as it is. |
| Request.HtmxRequest.TriggerName | src/HtmxRequest.php:91-94 | The decoded `triggerName` header as it is. |
| Request.HtmxRequest.Trigger | src/HtmxRequest.php:96-99 | The decoded `trigger` header as it is. |
| Request.HtmxRequest.CurrentURL | src/HtmxRequest.php:38-64 | Null exactly before decoding. A falsy header value is returned as it is. |
| Request.HtmxRequest.ParseCurrentUrl | src/HtmxRequest.php:66-69 | A null current URL is a `TypeError`. Otherwise it is the parse of `currentURL()`, with a null path when that URL has none. |
| Request.AccessorsAfterDecoding | src/HtmxRequest.php:18-99 | After decoding, every accessor returns its own `HTTP_HX_*` server value, or `""`. With the default options `currentURL()` does the same. |
| Response.RefreshValue | src/HtmxResponse.php:57 | The literal `"true"` or `"false"`, with `"true"` exactly when the argument is true. |
| Response.TriggerValue | src/HtmxResponse.php:112 | A string is stored as it is and an array as its JSON encoding. |
| Response.ChosenContentType | src/HtmxResponse.php:158-163 | JSON exactly for a non-empty array or a string that decodes to an array/object. A `TypeError` exactly for an empty array. HTML otherwise. |
| Response.Negotiated | src/HtmxResponse.php:158-164 | An explicit `Content-Type` is never replaced. Otherwise the chosen one is appended. No other header changes, and distinct header names stay distinct. |
| Response.Rendered | src/HtmxResponse.php:171-184 | Rendering fails with a `TypeError` exactly for an empty-array output without `Content-Type`, and then nothing is sent. Otherwise the status sent is the current one (200 for 0), the lines sent are exactly those of the negotiated headers, which hold `Content-Type`, and the body is what `echo` prints for the output. Distinct header names give negotiated headers with each name once. |
| Response.HtmxResponse.constructor | src/HtmxResponse.php:7-15 | Output null, status 200 and no headers by default. |
| Response.HtmxResponse.Location | src/HtmxResponse.php:22-26 | Sets exactly `HX-Location`, keeps the status, returns the same instance. |
| Response.HtmxResponse.PushUrl | src/HtmxResponse.php:33-37 | Sets exactly `HX-Push-Url`. |
| Response.HtmxResponse.Redirect | src/HtmxResponse.php:44-48 | Sets exactly `HX-Redirect`. |
| Response.HtmxResponse.Refresh | src/HtmxResponse.php:55-59 | Sets exactly `HX-Refresh` to `"true"` or `"false"`. |
| Response.HtmxResponse.ReplaceUrl | src/HtmxResponse.php:66-70 | Sets exactly `HX-Replace-Url`. |
| Response.HtmxResponse.ReSwap | src/HtmxResponse.php:77-81 | Sets exactly `HX-Reswap`. |
| Response.HtmxResponse.ReTarget | src/HtmxResponse.php:88-92 | Sets exactly `HX-Retarget`. |
| Response.HtmxResponse.ReSelect | src/HtmxResponse.php:99-103 | Sets exactly `HX-Reselect`. |
| Response.HtmxResponse.Trigger | src/HtmxResponse.php:110-114 | Sets exactly `HX-Trigger`, to a string argument or the JSON of an array argument. |
| Response.HtmxResponse.TriggerAfterSettle | src/HtmxResponse.php:121-125 | Sets exactly `HX-Trigger-After-Settle`. |
| Response.HtmxResponse.TriggerAfterSwap | src/HtmxResponse.php:132-136 | Sets exactly `HX-Trigger-After-Swap`. |
| Response.HtmxResponse.Status | src/HtmxResponse.php:141-145 | Changes only the status, which defaults to 200. |
| Response.HtmxResponse.Header | src/HtmxResponse.php:150-154 | Sets any header, overwriting an earlier value. |
| Response.HtmxResponse.SetHeaders | src/HtmxResponse.php:156-169 | The headers become the negotiated ones, sent one line each in order. An empty-array output raises the `TypeError` before any line. |
| Response.HtmxResponse.Render | src/HtmxResponse.php:171-184 | The headers become the negotiated ones, or stay as they were when negotiation fails, and the outcome is the rendered response for the old headers, output and status. The lines sent are those of the new headers, which keep each name once (`Valid`). |
| Response.DirectiveHeadersDistinct | src/HtmxResponse.php:22-136 | The eleven directive headers are distinct and none of them is `Content-Type`. |
| Response.RenderedShape | src/HtmxResponse.php:158-184 | When sent, a non-zero status goes out as it is, an array body JSON-encoded and a string body as it is. An explicit `Content-Type` sends the headers unchanged. |
| Response.ExplicitContentTypeAvoidsTypeError | src/HtmxResponse.php:158 | With `Content-Type` set explicitly, an empty-array output renders as its JSON instead of failing. |

## Left out

- The module configuration form (`getModuleConfigInputfields`), `getModuleInfo`, `wired()` and the composer `require` in the constructor. They are host registration and form building, with no behaviour to state.
- The ProcessWire service locator, hook registration and `$config->scripts->add`. Their effects are parameters and results: `Init` returns the admin scripts, and the two render hooks are methods applied to the page.
- The `___` hookable getters (`loadFrontendAssets`, `getExtensions`, …). They are read as the plain fields they return, since hooks that replace them are outside the model.
- `init()` also resets `$config->htmx` to false. The before-render hook sets that flag again for every page render, and `BeforePageRender` models that assignment.
- `header()`, `http_response_code()`, `echo` and `exit` are I/O. They become the returned `Outcome`, and `HtmxResponse::__toString` (which only calls `render()`) is not modelled separately.
- The JSON encoder and decoder are uninterpreted parameters. No JSON text is parsed or produced.
- `parse_url` is modelled for the shapes `scheme://authority/path`, `//authority/path` and plain paths. Malformed URLs, for which it returns false, and user-info or port parsing beyond "up to the first `/`" are left out.
- The percent-encoding, `+`, bracket-key and dot-to-underscore rules of `parse_str`/`http_build_query` are left out. Keys and values are plain strings joined as `k=v`.
- Request.RewriteUrl: override values are strings, and a non-array `override` option (which the code ignores) is not modelled. Nested array values in the override, which `http_build_query` writes in bracket notation, are not modelled either.
- Request.HtmxRequest.CurrentURL: the `clear` option is a boolean. PHP's truthiness of other option values is not modelled.
- The PHP values reaching `json_encode` and `HtmxResponse` output are `null`, strings and string-keyed arrays. Integers, booleans and objects are not modelled.
- `$_SERVER` values are strings. A variable that is set but null, which `??` treats as absent, is not modelled.
- Request.MergedParamsOrderAndPrecedence: keys are strings throughout. PHP turns a decimal key such as `"1"` into an integer key, and `array_merge` renumbers integer keys and appends their pairs instead of overriding them. So `http://h/p?1=a` with the override `['1' => 'b']` becomes `/p?0=a&1=b` in PHP, where the model gives `/p?1=b`.
- Dict.MergeGet: holds for string keys only, for the same reason. Integer keys, which `array_merge` renumbers, are not modelled.
- Dict.Merge: its own contract states only that the keys of `$a` come first. The values and the appended keys are stated by `Dict.MergeGet` and `Dict.MergeKeys`.
- Php.StrReplace: its own contract states only when nothing changes. Replacement left to right is stated by `Php.StrReplaceFirst` and `Php.StrReplaceAbsent`.
- HtmxModule.AssetPlan: its own contract states only the core script and the extension slots. The full order is stated by `HtmxModule.AssetPlanShape`.
- Request.MergedParams: its own contract states the key prefix. Order and precedence of the override are stated by `Request.MergedParamsOrderAndPrecedence`.
- Output.EffectiveStatus: assumes nothing set the status earlier in the request, such as a `Location` header or an earlier `http_response_code` call, so a code of 0 sends 200.
- FunctionsApi.StatusOption: option values are integers or arrays. A string, float, boolean or null `status` or `headers` option, which PHP coerces or rejects in other ways, is not modelled.
- Request.ParseUrl: for a URL without a path, PHP also emits the "Undefined array key" warning when it reads `$parsed['path']`. The warning is output, and only the null value it yields is modelled. The rebuilt URL of `currentURL()` interpolates that null as `""`, which is what `Request.Overridden` uses.
