/**
 * The few PHP built-ins the module relies on, over strings (sequences of
 * bytes, here of `char`), and the shape of PHP values that reach
 * `json_encode`.
 */
module Php {
  import opened Wrappers

  /** PHP's truth value of a string: only `""` and `"0"` are false. */
  predicate Truthy(s: string) {
    s != "" && s != "0"
  }

  predicate StartsWith(s: string, prefix: string) {
    |prefix| <= |s| && s[..|prefix|] == prefix
  }

  /** A prefix of a string is a prefix of any extension of it. */
  lemma StartsWithAppend(s: string, t: string, prefix: string)
    requires StartsWith(s, prefix)
    ensures StartsWith(s + t, prefix)
  {
    assert (s + t)[..|prefix|] == s[..|prefix|];
  }

  /** `needle` occurs in `s` starting at some index. */
  predicate Contains(s: string, needle: string) {
    exists i :: 0 <= i < |s| && StartsWith(s[i..], needle)
  }

  /**
   * `str_replace($search, $replace, $subject)` for a single search string:
   * scans left to right and replaces every non-overlapping occurrence.
   * An empty search string leaves the subject as it is.
   */
  function StrReplace(search: string, replace: string, subject: string): (r: string)
    ensures search == [] ==> r == subject
    ensures search == replace ==> r == subject
    decreases |subject|
  {
    if search == [] || |subject| < |search| then subject
    else if subject[..|search|] == search then
      assert subject == subject[..|search|] + subject[|search|..];
      replace + StrReplace(search, replace, subject[|search|..])
    else
      [subject[0]] + StrReplace(search, replace, subject[1..])
  }

  /** A subject in which the search string does not occur comes back unchanged. */
  lemma {:induction false} StrReplaceAbsent(search: string, replace: string, subject: string)
    requires !Contains(subject, search)
    ensures StrReplace(search, replace, subject) == subject
    decreases |subject|
  {
    if search != [] && |subject| >= |search| {
      assert subject[0..] == subject;
      assert !StartsWith(subject, search);
      assert !Contains(subject[1..], search) by {
        forall i | 0 <= i < |subject[1..]| ensures !StartsWith(subject[1..][i..], search) {
          assert subject[1..][i..] == subject[i + 1..];
        }
      }
      StrReplaceAbsent(search, replace, subject[1..]);
    }
  }

  /** No occurrence of `needle` starts in `s` before index `n`. */
  predicate NoneBefore(s: string, needle: string, n: nat) {
    forall i :: 0 <= i < n && i < |s| ==> !StartsWith(s[i..], needle)
  }

  /**
   * The first occurrence of the search string is replaced, and the scan
   * goes on after it: `before` is kept, the occurrence becomes `replace`.
   */
  lemma {:induction false} StrReplaceFirst(search: string, replace: string, before: string, after: string)
    requires search != []
    requires NoneBefore(before + search + after, search, |before|)
    ensures StrReplace(search, replace, before + search + after)
         == before + replace + StrReplace(search, replace, after)
    decreases |before|
  {
    if before == [] {
      assert before + search + after == search + after;
      StrReplaceAt(search, replace, after);
    } else {
      NoneBeforeTail(search, before, after);
      StrReplaceFirst(search, replace, before[1..], after);
      StrReplaceKeepsFirst(search, replace, before, after);
    }
  }

  /** The step of `StrReplaceFirst`: a first character that opens no occurrence is kept. */
  lemma StrReplaceKeepsFirst(search: string, replace: string, before: string, after: string)
    requires search != [] && before != []
    requires !StartsWith(before + search + after, search)
    requires StrReplace(search, replace, before[1..] + search + after)
          == before[1..] + replace + StrReplace(search, replace, after)
    ensures StrReplace(search, replace, before + search + after)
         == before + replace + StrReplace(search, replace, after)
  {
    var c, tail := before[0], before[1..] + search + after;
    assert before + search + after == [c] + tail;
    StrReplaceSkip(search, replace, [c] + tail);
    assert ([c] + tail)[1..] == tail;
    calc {
      StrReplace(search, replace, [c] + tail);
      [c] + StrReplace(search, replace, tail);
      [c] + (before[1..] + replace + StrReplace(search, replace, after));
      { assert [c] + before[1..] == before; }
      before + replace + StrReplace(search, replace, after);
    }
  }

  /** A subject that opens with the search string. */
  lemma StrReplaceAt(search: string, replace: string, after: string)
    requires search != []
    ensures StrReplace(search, replace, search + after) == replace + StrReplace(search, replace, after)
  {
    var s := search + after;
    assert s[..|search|] == search;
    assert s[|search|..] == after;
  }

  /** Dropping the first character of `before` keeps the occurrence the first one. */
  lemma NoneBeforeTail(search: string, before: string, after: string)
    requires before != []
    requires NoneBefore(before + search + after, search, |before|)
    ensures !StartsWith(before + search + after, search)
    ensures NoneBefore(before[1..] + search + after, search, |before| - 1)
  {
    var s := before + search + after;
    var t := before[1..] + search + after;
    assert s[0..] == s;
    forall i | 0 <= i < |before| - 1 && i < |t|
      ensures !StartsWith(t[i..], search)
    {
      assert t[i..] == s[i + 1..];
    }
  }

  /** At an occurrence, `str_replace` writes the replacement and goes on after it. */
  lemma StrReplaceMatch(search: string, replace: string, s: string)
    requires search != [] && StartsWith(s, search)
    ensures StrReplace(search, replace, s) == replace + StrReplace(search, replace, s[|search|..])
  {
  }

  /** Elsewhere, `str_replace` keeps the character and goes on after it. */
  lemma StrReplaceSkip(search: string, replace: string, s: string)
    requires search != [] && s != [] && !StartsWith(s, search)
    ensures StrReplace(search, replace, s) == [s[0]] + StrReplace(search, replace, s[1..])
  {
    if |s| < |search| {
      StrReplaceShort(search, replace, s[1..]);
      assert s == [s[0]] + s[1..];
    }
  }

  /** A subject shorter than the search string comes back unchanged. */
  lemma StrReplaceShort(search: string, replace: string, s: string)
    requires |s| < |search|
    ensures StrReplace(search, replace, s) == s
  {
  }

  /** The part of `s` before the first `c` (all of `s` when there is none). */
  function Before(s: string, c: char): (r: string)
    ensures StartsWith(s, r) && c !in r
    ensures |r| < |s| ==> s[|r|] == c
    ensures c in s ==> |r| < |s|
  {
    if s == [] then []
    else if s[0] == c then []
    else [s[0]] + Before(s[1..], c)
  }

  /** The part of `s` after the first `c`, if `s` holds one. */
  function After(s: string, c: char): (r: Option<string>)
    ensures r.None? <==> c !in s
    ensures r.Some? ==> s == Before(s, c) + [c] + r.value
  {
    if s == [] then None
    else if s[0] == c then Some(s[1..])
    else After(s[1..], c)
  }

  /** How many copies of `c` open `s`. */
  function LeadingCount(s: string, c: char): (n: nat)
    ensures n <= |s|
    ensures forall i :: 0 <= i < n ==> s[i] == c
    ensures n < |s| ==> s[n] != c
  {
    if s != [] && s[0] == c then 1 + LeadingCount(s[1..], c) else 0
  }

  /** Where the run of `c` that closes `s` starts. */
  function TrailingStart(s: string, c: char): (n: nat)
    ensures n <= |s|
    ensures forall i :: n <= i < |s| ==> s[i] == c
    ensures n > 0 ==> s[n - 1] != c
  {
    if s != [] && s[|s| - 1] == c then TrailingStart(s[..|s| - 1], c) else |s|
  }

  /** `ltrim($s, $c)`: `s` without the copies of `c` that open it. */
  function LTrim(s: string, c: char): (r: string)
    ensures r == [] || r[0] != c
    ensures |r| <= |s| && r == s[|s| - |r|..]
    ensures forall i :: 0 <= i < |s| - |r| ==> s[i] == c
    ensures forall x :: x in r ==> x in s
  {
    s[LeadingCount(s, c)..]
  }

  /** `rtrim($s, $c)`: `s` without the copies of `c` that close it. */
  function RTrim(s: string, c: char): (r: string)
    ensures r == [] || r[|r| - 1] != c
    ensures |r| <= |s| && r == s[..|r|]
    ensures forall i :: |r| <= i < |s| ==> s[i] == c
    ensures forall x :: x in r ==> x in s
  {
    s[..TrailingStart(s, c)]
  }

  /**
   * `trim($s, $c)`: `s` is the result with only copies of `c` around it,
   * and the result neither starts nor ends with `c`.
   */
  function Trim(s: string, c: char): (r: string)
    ensures r == [] || (r[0] != c && r[|r| - 1] != c)
    ensures var n := LeadingCount(s, c);
      && n + |r| <= |s| && s[n..n + |r|] == r
      && (forall i :: 0 <= i < n ==> s[i] == c)
      && (forall i :: n + |r| <= i < |s| ==> s[i] == c)
    ensures forall x :: x in r ==> x in s
  {
    var n := LeadingCount(s, c);
    var l := LTrim(s, c);
    assert l == s[n..];
    var r := RTrim(l, c);
    assert r != [] ==> r[0] == l[0];
    assert s[n..n + |r|] == r;
    assert forall i :: n + |r| <= i < |s| ==> s[i] == l[i - n];
    r
  }

  /** Trimming a falsy string ("" or "0") by anything but '0' leaves it as it is. */
  lemma TrimFalsy(s: string, c: char)
    requires !Truthy(s) && c != '0'
    ensures Trim(s, c) == s
  {
    if s == "0" {
      assert LeadingCount(s, c) == 0;
      assert TrailingStart(s, c) == 1;
    }
  }

  /**
   * The first call of `strtok($s, $c)`: leading delimiters are skipped and
   * the token runs to the next delimiter; `false` (here `None`) when
   * nothing but delimiters is left.
   */
  function StrTok(s: string, c: char): (r: Option<string>)
    ensures r.Some? ==> r.value != [] && c !in r.value
    ensures r.None? <==> forall i :: 0 <= i < |s| ==> s[i] == c
    ensures r.Some? ==> r.value == Before(s[LeadingCount(s, c)..], c)
    ensures (s == [] || s[0] != c) ==> r == if s == [] then None else Some(Before(s, c))
  {
    var rest := LTrim(s, c);
    if rest == [] then None else Some(Before(rest, c))
  }

  /** `ucfirst($s)`: an ASCII lower-case first letter becomes upper case. */
  function UcFirst(s: string): (r: string)
    ensures |r| == |s| && (s != [] ==> r[1..] == s[1..])
    ensures s != [] && !('a' <= s[0] <= 'z') ==> r == s
    ensures s != [] && 'a' <= s[0] <= 'z' ==> 'A' <= r[0] <= 'Z' && r[0] as int == s[0] as int - 32
  {
    if s != [] && 'a' <= s[0] <= 'z' then [(s[0] as int - 32) as char] + s[1..] else s
  }

  predicate IsDigit(c: char) {
    '0' <= c <= '9'
  }

  /** The decimal text PHP prints for a non-negative integer. */
  function DecimalString(n: nat): (r: string)
    ensures r != [] && forall i :: 0 <= i < |r| ==> IsDigit(r[i])
    ensures |r| > 1 ==> r[0] != '0'
    decreases n
  {
    if n < 10 then [('0' as int + n) as char]
    else DecimalString(n / 10) + [('0' as int + n % 10) as char]
  }

  /** The number a string of decimal digits denotes. */
  function DecimalValue(s: string): nat
    requires forall i :: 0 <= i < |s| ==> IsDigit(s[i])
    decreases |s|
  {
    if s == [] then 0
    else
      assert IsDigit(s[|s| - 1]);
      10 * DecimalValue(s[..|s| - 1]) + (s[|s| - 1] as int - '0' as int)
  }

  /** The decimal text of a timestamp reads back as that timestamp. */
  lemma {:induction false} DecimalRoundTrip(n: nat)
    ensures DecimalValue(DecimalString(n)) == n
    decreases n
  {
    if n >= 10 {
      DecimalRoundTrip(n / 10);
      var s := DecimalString(n);
      assert s[..|s| - 1] == DecimalString(n / 10);
    }
  }

  /** A PHP value as far as this module looks at it: `null`, a string or an array. */
  datatype Value = Null | Str(s: string) | Arr(entries: seq<(string, Value)>)

  /**
   * `json_encode` and the test `is_array(json_decode($s, true))`, taken as
   * given: the model does not implement JSON.
   */
  datatype JsonCodec = JsonCodec(encode: Value -> string, decodesToArray: string -> bool)
}
