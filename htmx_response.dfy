/**
 * `HtmxResponse` (src/HtmxResponse.php): a response builder whose
 * chainable setters write `HX-*` response headers, and whose `render()`
 * settles `Content-Type`, sends status, headers and body, and ends the
 * request.
 */
module Response {
  import opened Wrappers
  import opened Dict
  import opened Php
  import opened Output
  import opened FunctionsApi

  const ContentType := "Content-Type"

  /** The fixed header each directive setter writes. */
  const LocationHeader := "HX-Location"
  const PushUrlHeader := "HX-Push-Url"
  const RedirectHeader := "HX-Redirect"
  const RefreshHeader := "HX-Refresh"
  const ReplaceUrlHeader := "HX-Replace-Url"
  const ReswapHeader := "HX-Reswap"
  const RetargetHeader := "HX-Retarget"
  const ReselectHeader := "HX-Reselect"
  const TriggerHeader := "HX-Trigger"
  const TriggerAfterSettleHeader := "HX-Trigger-After-Settle"
  const TriggerAfterSwapHeader := "HX-Trigger-After-Swap"

  /** `$refresh ? 'true' : 'false'`. */
  function RefreshValue(refresh: bool): (r: string)
    ensures r == "true" || r == "false"
    ensures r == "true" <==> refresh
  {
    if refresh then "true" else "false"
  }

  /** The `HX-Trigger` value: a string as it is, an array as its JSON encoding. */
  function TriggerValue(trigger: Value, json: JsonCodec): (r: string)
    requires trigger.Str? || trigger.Arr?
    ensures trigger.Str? ==> r == trigger.s
    ensures trigger.Arr? ==> r == json.encode(trigger)
  {
    if trigger.Arr? then json.encode(trigger) else trigger.s
  }

  /**
   * The `Content-Type` `setHeaders()` chooses when none is set: JSON for a
   * non-empty array or for a string that decodes to an array or object,
   * HTML otherwise. `None` for an empty array: it is falsy, so it reaches
   * `json_decode`, which takes only strings.
   */
  function ChosenContentType(output: Value, json: JsonCodec): (r: Option<string>)
    ensures r.None? <==> output == Arr([])
    ensures r == Some(JsonType) <==> (output.Arr? && output.entries != []) || (output.Str? && json.decodesToArray(output.s))
    ensures r.Some? ==> r.value == JsonType || r.value == HtmlType
  {
    if output.Arr? && output.entries != [] then Some(JsonType)
    else
      match output
      case Arr(_) => None
      case Str(s) => Some(if json.decodesToArray(s) then JsonType else HtmlType)
      case Null => Some(HtmlType)
  }

  /**
   * The headers after the `Content-Type` step of `setHeaders()`: an
   * explicit `Content-Type` is kept as it is; otherwise the chosen one is
   * added, and an empty-array output is a `TypeError` (`None`).
   */
  function Negotiated(headers: Dict<string>, output: Value, json: JsonCodec): (r: Option<Dict<string>>)
    ensures ContentType in Keys(headers) ==> r == Some(headers)
    ensures ContentType !in Keys(headers) ==> (r.None? <==> output == Arr([]))
    ensures r.Some? ==> Get(r.value, ContentType).Some? && r.value != []
    ensures r.Some? && ContentType !in Keys(headers) ==>
              Get(r.value, ContentType) == ChosenContentType(output, json)
              && Keys(r.value) == Keys(headers) + [ContentType]
    ensures r.Some? ==> forall k :: k != ContentType ==> Get(r.value, k) == Get(headers, k)
    ensures Unique(headers) && r.Some? ==> Unique(r.value)
  {
    if ContentType in Keys(headers) then Some(headers)
    else
      match ChosenContentType(output, json)
      case None => None
      case Some(t) => Some(Set(headers, ContentType, t))
  }

  /**
   * The status, header lines and body `render()` sends, or the `TypeError`
   * it raises before sending anything. The lines sent are those of the
   * negotiated headers, so one of them carries `Content-Type`, and with
   * distinct header names each name is sent once.
   */
  function Rendered(headers: Dict<string>, output: Value, status: int, json: JsonCodec): (r: Outcome)
    ensures r.Thrown? <==> ContentType !in Keys(headers) && output == Arr([])
    ensures r.Thrown? ==> r == Thrown(TypeError, [])
    ensures r.Sent? ==> r.status == EffectiveStatus(status) && |r.headerLines| >= 1
    ensures r.Sent? ==> var negotiated := Negotiated(headers, output, json);
      && negotiated.Some?
      && r.headerLines == HeaderLines(negotiated.value)
      && Get(negotiated.value, ContentType).Some?
      && r.body == EchoBody(output, json)
    ensures r.Sent? && Unique(headers) ==> Unique(Negotiated(headers, output, json).value)
  {
    match Negotiated(headers, output, json)
    case None => Thrown(TypeError, [])
    case Some(h) => Sent(EffectiveStatus(status), HeaderLines(h), EchoBody(output, json))
  }

  /** The response builder: the payload, the status code and the header array. */
  class HtmxResponse {
    var output: Value
    var status: int
    var headers: Dict<string>

    /** A PHP array has each key once. */
    predicate Valid()
      reads this
    {
      Unique(headers)
    }

    /** `new HtmxResponse($output = null, $status = 200)`: no headers yet. */
    constructor(output: Value := Null, status: int := 200)
      ensures this.output == output && this.status == status && headers == []
      ensures Valid()
    {
      this.output := output;
      this.status := status;
      headers := [];
    }

    /** `location($url)`. */
    method Location(url: string) returns (self: HtmxResponse)
      requires Valid()
      modifies this`headers
      ensures Valid() && self == this
      ensures headers == Set(old(headers), LocationHeader, url)
    {
      headers := Set(headers, LocationHeader, url);
      self := this;
    }

    /** `pushUrl($url)`. */
    method PushUrl(url: string) returns (self: HtmxResponse)
      requires Valid()
      modifies this`headers
      ensures Valid() && self == this
      ensures headers == Set(old(headers), PushUrlHeader, url)
    {
      headers := Set(headers, PushUrlHeader, url);
      self := this;
    }

    /** `redirect($url)`. */
    method Redirect(url: string) returns (self: HtmxResponse)
      requires Valid()
      modifies this`headers
      ensures Valid() && self == this
      ensures headers == Set(old(headers), RedirectHeader, url)
    {
      headers := Set(headers, RedirectHeader, url);
      self := this;
    }

    /** `refresh($refresh)`: the literal "true" or "false". */
    method Refresh(refresh: bool) returns (self: HtmxResponse)
      requires Valid()
      modifies this`headers
      ensures Valid() && self == this
      ensures headers == Set(old(headers), RefreshHeader, RefreshValue(refresh))
    {
      headers := Set(headers, RefreshHeader, if refresh then "true" else "false");
      self := this;
    }

    /** `replaceUrl($url)`. */
    method ReplaceUrl(url: string) returns (self: HtmxResponse)
      requires Valid()
      modifies this`headers
      ensures Valid() && self == this
      ensures headers == Set(old(headers), ReplaceUrlHeader, url)
    {
      headers := Set(headers, ReplaceUrlHeader, url);
      self := this;
    }

    /** `reSwap($swap)`. */
    method ReSwap(swap: string) returns (self: HtmxResponse)
      requires Valid()
      modifies this`headers
      ensures Valid() && self == this
      ensures headers == Set(old(headers), ReswapHeader, swap)
    {
      headers := Set(headers, ReswapHeader, swap);
      self := this;
    }

    /** `reTarget($target)`. */
    method ReTarget(target: string) returns (self: HtmxResponse)
      requires Valid()
      modifies this`headers
      ensures Valid() && self == this
      ensures headers == Set(old(headers), RetargetHeader, target)
    {
      headers := Set(headers, RetargetHeader, target);
      self := this;
    }

    /** `reSelect($select)`. */
    method ReSelect(select: string) returns (self: HtmxResponse)
      requires Valid()
      modifies this`headers
      ensures Valid() && self == this
      ensures headers == Set(old(headers), ReselectHeader, select)
    {
      headers := Set(headers, ReselectHeader, select);
      self := this;
    }

    /** `trigger($trigger)`, for a `string|array` argument. */
    method Trigger(trigger: Value, json: JsonCodec) returns (self: HtmxResponse)
      requires Valid()
      requires trigger.Str? || trigger.Arr?
      modifies this`headers
      ensures Valid() && self == this
      ensures headers == Set(old(headers), TriggerHeader, TriggerValue(trigger, json))
    {
      var value := if trigger.Arr? then json.encode(trigger) else trigger.s;
      headers := Set(headers, TriggerHeader, value);
      self := this;
    }

    /** `triggerAfterSettle($trigger)`. */
    method TriggerAfterSettle(trigger: string) returns (self: HtmxResponse)
      requires Valid()
      modifies this`headers
      ensures Valid() && self == this
      ensures headers == Set(old(headers), TriggerAfterSettleHeader, trigger)
    {
      headers := Set(headers, TriggerAfterSettleHeader, trigger);
      self := this;
    }

    /** `triggerAfterSwap($trigger)`. */
    method TriggerAfterSwap(trigger: string) returns (self: HtmxResponse)
      requires Valid()
      modifies this`headers
      ensures Valid() && self == this
      ensures headers == Set(old(headers), TriggerAfterSwapHeader, trigger)
    {
      headers := Set(headers, TriggerAfterSwapHeader, trigger);
      self := this;
    }

    /** `status($status = 200)`: only the status changes. */
    method Status(status: int := 200) returns (self: HtmxResponse)
      modifies this`status
      ensures self == this && this.status == status
    {
      this.status := status;
      self := this;
    }

    /** `header($name, $value)`: any header, overwriting an earlier value. */
    method Header(name: string, value: string) returns (self: HtmxResponse)
      requires Valid()
      modifies this`headers
      ensures Valid() && self == this
      ensures headers == Set(old(headers), name, value)
    {
      headers := Set(headers, name, value);
      self := this;
    }

    /**
     * `setHeaders()`: settles `Content-Type`, then emits one line per
     * header in array order; `None` is the `TypeError` of an empty-array
     * output, raised before any line is sent.
     */
    method SetHeaders(json: JsonCodec) returns (lines: Option<seq<string>>)
      requires Valid()
      modifies this`headers
      ensures Valid()
      ensures Negotiated(old(headers), output, json).None? ==> lines.None? && headers == old(headers)
      ensures Negotiated(old(headers), output, json).Some? ==>
                headers == Negotiated(old(headers), output, json).value && lines == Some(HeaderLines(headers))
    {
      if ContentType !in Keys(headers) {
        if output.Arr? && output.entries != [] {
          var _ := Header(ContentType, JsonType);
        } else if output.Arr? {
          return None;
        } else if output.Str? && json.decodesToArray(output.s) {
          var _ := Header(ContentType, JsonType);
        } else {
          var _ := Header(ContentType, HtmlType);
        }
      }
      var sent := SendHeaders(headers);
      lines := Some(sent);
    }

    /** `render()`: headers, then the status, then the body; the request ends here. */
    method Render(json: JsonCodec) returns (outcome: Outcome)
      requires Valid()
      modifies this`headers
      ensures Valid()
      ensures Negotiated(old(headers), output, json).None? ==> headers == old(headers)
      ensures Negotiated(old(headers), output, json).Some? ==> headers == Negotiated(old(headers), output, json).value
      ensures outcome == Rendered(old(headers), output, status, json)
      ensures outcome.Sent? ==> outcome.headerLines == HeaderLines(headers)
    {
      var lines := SetHeaders(json);
      if lines.None? {
        return Thrown(TypeError, []);
      }
      var body := if output.Arr? then json.encode(output) else if output.Str? then output.s else "";
      outcome := Sent(EffectiveStatus(status), lines.value, body);
    }
  }

  /** The directive headers are eleven distinct names, none of them `Content-Type`. */
  lemma DirectiveHeadersDistinct()
    ensures var names := [LocationHeader, PushUrlHeader, RedirectHeader, RefreshHeader, ReplaceUrlHeader,
                          ReswapHeader, RetargetHeader, ReselectHeader, TriggerHeader,
                          TriggerAfterSettleHeader, TriggerAfterSwapHeader];
      && (forall i, j :: 0 <= i < j < |names| ==> names[i] != names[j])
      && ContentType !in names
  {
  }

  /**
   * A rendered response is sent with the current status, the body is the
   * JSON encoding of an array and the output itself otherwise, and an
   * explicit `Content-Type` goes out unchanged.
   */
  lemma RenderedShape(headers: Dict<string>, output: Value, status: int, json: JsonCodec)
    ensures var r := Rendered(headers, output, status, json);
      && (r.Sent? && status != 0 ==> r.status == status)
      && (r.Sent? && output.Arr? ==> r.body == json.encode(output))
      && (r.Sent? && output.Str? ==> r.body == output.s)
      && (r.Sent? && output.Null? ==> r.body == "")
      && (ContentType in Keys(headers) ==> r == Sent(EffectiveStatus(status), HeaderLines(headers), EchoBody(output, json)))
  {
  }

  /** With `Content-Type` set explicitly, an empty-array output renders as `[]`-encoded JSON instead of failing. */
  lemma ExplicitContentTypeAvoidsTypeError(headers: Dict<string>, status: int, json: JsonCodec)
    requires ContentType in Keys(headers)
    ensures Rendered(headers, Arr([]), status, json) == Sent(EffectiveStatus(status), HeaderLines(headers), json.encode(Arr([])))
  {
  }
}
