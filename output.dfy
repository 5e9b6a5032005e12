/**
 * What a response puts on the wire. PHP writes headers with `header()`, the
 * status with `http_response_code()`, the body with `echo`, and then
 * `exit`s; here that terminal step is a returned value.
 */
module Output {
  import opened Dict
  import opened Php

  /**
   * What PHP throws: a `TypeError` (an argument of the wrong type), or the
   * `Error` "Cannot use a scalar value as an array" (an assignment into an
   * integer as if it were an array).
   */
  datatype Failure = TypeError | ScalarAsArray

  /**
   * A response that was sent, or the error PHP throws part way, with the
   * header lines that had already gone out by then.
   */
  datatype Outcome =
    | Sent(status: int, headerLines: seq<string>, body: string)
    | Thrown(error: Failure, headerLines: seq<string>)

  /**
   * The status that goes out after `http_response_code($code)`: a zero code
   * only reads the current one and sets nothing, so the default 200 stays.
   */
  function EffectiveStatus(code: int): (r: int)
    ensures code != 0 ==> r == code
    ensures code == 0 ==> r == 200
  {
    if code == 0 then 200 else code
  }

  /** The text `header("{$name}: {$value}")` sends: the name, a colon and a space, the value. */
  function HeaderLine(name: string, value: string): (r: string)
    ensures |r| == |name| + 2 + |value|
    ensures r[..|name|] == name && r[|name|..|name| + 2] == ": " && r[|name| + 2..] == value
  {
    name + ": " + value
  }

  /** The header lines for a header array, in its order. */
  function HeaderLines(headers: Dict<string>): seq<string> {
    seq(|headers|, i requires 0 <= i < |headers| => HeaderLine(headers[i].0, headers[i].1))
  }

  /** What `echo` prints for a response payload: arrays as `json_encode`, strings as they are, `null` as nothing. */
  function EchoBody(output: Value, json: JsonCodec): (r: string)
    ensures output.Arr? ==> r == json.encode(output)
    ensures output.Str? ==> r == output.s
    ensures output.Null? ==> r == ""
  {
    match output
    case Arr(_) => json.encode(output)
    case Str(s) => s
    case Null => ""
  }

  /** The `foreach ($headers as $name => $content) header(...)` loop: one line per pair, in order. */
  method SendHeaders(headers: Dict<string>) returns (lines: seq<string>)
    ensures |lines| == |headers|
    ensures forall i :: 0 <= i < |headers| ==> lines[i] == HeaderLine(headers[i].0, headers[i].1)
    ensures lines == HeaderLines(headers)
  {
    lines := [];
    for i := 0 to |headers|
      invariant |lines| == i
      invariant forall j :: 0 <= j < i ==> lines[j] == HeaderLine(headers[j].0, headers[j].1)
    {
      var (name, content) := headers[i];
      lines := lines + [HeaderLine(name, content)];
    }
  }
}
