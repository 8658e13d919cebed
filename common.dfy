/** Values shared by the three controllers: optional values, request-body
    fields with JavaScript's undefined/null distinction, handler responses,
    and the few string operations the handlers perform. */
module Common {

  datatype Option<+T> = None | Some(value: T)

  /** A field of a JSON request body. `Undefined` is an omitted key, `Null`
      an explicit null; `Given` carries any other value. For fields that the
      handlers only read through `parseInt` or a date (assignee ids, due
      dates), every falsy value is written `Null`, because the handlers treat
      all of them alike, and `Given(v)` carries the parsed value of a truthy one. */
  datatype Arg<+T> = Undefined | Null | Given(value: T)

  /** JavaScript truthiness of a string field: neither omitted, nor null, nor "". */
  predicate Truthy(a: Arg<string>) {
    a.Given? && a.value != ""
  }

  /** The expression `field || null` on a string field. */
  function OrNull(a: Arg<string>): (r: Option<string>)
    ensures r.Some? <==> Truthy(a)
    ensures r.Some? ==> r.value == a.value && r.value != ""
  {
    if Truthy(a) then Some(a.value) else None
  }

  /** The column value after an UPDATE that sets the field when it is not
      `undefined` (a null clears the column) and leaves it alone otherwise. */
  function Patch<T>(a: Arg<T>, current: Option<T>): (r: Option<T>)
    ensures a.Undefined? ==> r == current
    ensures a.Null? ==> r.None?
    ensures a.Given? ==> r == Some(a.value)
  {
    match a
    case Undefined => current
    case Null => None
    case Given(v) => Some(v)
  }

  /** `fallback` unless `a` is truthy: the expression `field || 'fallback'`. */
  function OrDefault(a: Arg<string>, fallback: string): (r: string)
    ensures Truthy(a) ==> r == a.value
    ensures !Truthy(a) ==> r == fallback
  {
    if Truthy(a) then a.value else fallback
  }

  /** What a handler sends back: an HTTP status code with a payload, or with
      an `{ error: ... }` message. */
  datatype Response<+T> = Ok(code: int, value: T) | Err(code: int, error: string)

  /** A guard that rejected a request: the status code and the message. */
  datatype Rejection = Rejection(code: int, message: string)

  /** `needle` occurs in `hay` starting at index `i`. */
  predicate OccursAt(hay: string, needle: string, i: int) {
    0 <= i && i + |needle| <= |hay| && hay[i..i + |needle|] == needle
  }

  /** Substring test: the model of `LIKE '%needle%'`. */
  predicate Contains(hay: string, needle: string) {
    exists i :: 0 <= i <= |hay| - |needle| && OccursAt(hay, needle, i)
  }

  /** ASCII upper-casing of one character. */
  function UpperChar(c: char): char {
    if 'a' <= c <= 'z' then (c as int - 32) as char else c
  }

  /** `toUpperCase()` restricted to ASCII letters. */
  function Upper(s: string): (r: string)
    ensures |r| == |s|
    ensures forall i :: 0 <= i < |s| ==> r[i] == UpperChar(s[i])
  {
    if s == [] then [] else [UpperChar(s[0])] + Upper(s[1..])
  }

  /** `xs.join(sep)`. */
  function Join(xs: seq<string>, sep: string): string {
    if |xs| == 0 then ""
    else if |xs| == 1 then xs[0]
    else xs[0] + sep + Join(xs[1..], sep)
  }

  function DigitChar(d: int): char
    requires 0 <= d < 10
  {
    "0123456789"[d]
  }

  function NatToString(n: nat): (r: string)
    ensures |r| > 0
  {
    if n < 10 then [DigitChar(n)] else NatToString(n / 10) + [DigitChar(n % 10)]
  }

  /** The decimal text JavaScript writes for an integer. */
  function IntToString(n: int): string {
    if n < 0 then "-" + NatToString(-n) else NatToString(n)
  }

  /** Timestamps are whole seconds. */
  const HourSeconds: int := 3600
  const DaySeconds: int := 86400

  /** SQL `DATE(t)`: the day number of a timestamp. */
  function Day(t: int): int {
    t / DaySeconds
  }
}
