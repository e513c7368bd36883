/**
 * The part of schema validation that the request handlers use: a JSON body is
 * checked key by key in the order the schema declares its keys, every failing
 * key contributes an issue, and a handler that rejects the body reports the
 * message of the first issue.
 */
module Validation {
  import opened Store

  /** One string-typed key of a JSON body as the schema sees it. `T` is the parsed value. */
  datatype Field<T> = Missing | NotString(received: string) | Given(value: T)

  /** One key of a JSON body whose value must be a nested object. */
  datatype Section<T> = Absent | NotObject(received: string) | Present(fields: T)

  datatype Result<T> = Ok(value: T) | Err(message: string)

  const Required: string := "Required"

  function ExpectedString(received: string): string {
    "Expected string, received " + received
  }

  function ExpectedObject(received: string): string {
    "Expected object, received " + received
  }

  /** The issues of a required key that must hold a string and has no further check. */
  function TypeIssues<T>(f: Field<T>): (r: seq<string>)
    ensures |r| <= 1
    ensures r == [] <==> f.Given?
    ensures f.Missing? ==> r == [Required]
  {
    match f
    case Missing => [Required]
    case NotString(received) => [ExpectedString(received)]
    case Given(_) => []
  }

  /** The issues of a required string key whose value must satisfy `ok`, failing with `message`. */
  function CheckedIssues(f: Field<string>, ok: string -> bool, message: string): (r: seq<string>)
    ensures |r| <= 1
    ensures r == [] <==> f.Given? && ok(f.value)
    ensures f.Given? && !ok(f.value) ==> r == [message]
  {
    if f.Given? then (if ok(f.value) then [] else [message]) else TypeIssues(f)
  }

  /** The issues of an optional string key: an absent key is accepted. */
  function OptionalIssues(f: Field<string>, ok: string -> bool, message: string): (r: seq<string>)
    ensures |r| <= 1
    ensures r == [] <==> f.Missing? || (f.Given? && ok(f.value))
    ensures f.Given? && !ok(f.value) ==> r == [message]
  {
    if f.Missing? then [] else CheckedIssues(f, ok, message)
  }

  /** The value of an optional key once it passed validation. */
  function OptionalValue(f: Field<string>): (r: Option<string>)
    ensures r.Some? <==> f.Given?
    ensures r.Some? ==> r.value == f.value
  {
    if f.Given? then Some(f.value) else None
  }

  /** The issues of a nested-object key; `inner` is the list of issues of its own keys. */
  function SectionIssues<T>(s: Section<T>, inner: T -> seq<string>): (r: seq<string>)
    ensures r == [] <==> s.Present? && inner(s.fields) == []
  {
    match s
    case Absent => [Required]
    case NotObject(received) => [ExpectedObject(received)]
    case Present(fields) => inner(fields)
  }

  /** `min(n)`: a string of at least `n` characters. */
  function MinLength(n: nat): string -> bool {
    s => |s| >= n
  }
}
