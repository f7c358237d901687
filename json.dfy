/** A parsed JSON value, as `System.Text.Json` exposes it to the converters and
    to the error-body reader: the token kinds, and the two ways of turning a
    value into text (`JsonElement.GetRawText` and `JsonElement.ToString`). */
module Json {
  import Text
  import opened Wrappers

  datatype Json =
    | JNull
    | JTrue
    | JFalse
    | JNumber(literal: string)   // the number as written in the document
    | JString(text: string)      // the unescaped string value
    | JArray(items: seq<Json>)
    | JObject(members: seq<Member>)

  /** One property of an object, in document order; names may repeat. */
  datatype Member = Member(name: string, value: Json)

  /** Escapes the two characters that cannot appear raw inside a JSON string. */
  function EscapeString(s: string): string
    decreases |s|
  {
    if |s| == 0 then ""
    else (if s[0] == '"' || s[0] == '\\' then ['\\', s[0]] else [s[0]]) + EscapeString(s[1..])
  }

  /** `JsonElement.GetRawText`: the JSON text of a value (in compact form). */
  function RawText(j: Json): string
    decreases j
  {
    match j
    case JNull => "null"
    case JTrue => "true"
    case JFalse => "false"
    case JNumber(literal) => literal
    case JString(text) => "\"" + EscapeString(text) + "\""
    case JArray(items) =>
      "[" + Text.Join(seq(|items|, i requires 0 <= i < |items| => RawText(items[i])), ',') + "]"
    case JObject(members) =>
      "{" + Text.Join(seq(|members|, i requires 0 <= i < |members| =>
                          "\"" + EscapeString(members[i].name) + "\":" + RawText(members[i].value)), ',') + "}"
  }

  /** `JsonElement.ToString()`: empty for null, `True`/`False` for the literals, the
      unescaped value for a string, and the raw text for numbers, arrays and objects. */
  function ToText(j: Json): (s: string)
    ensures j.JString? ==> s == j.text
    ensures j.JNumber? || j.JArray? || j.JObject? ==> s == RawText(j)
  {
    match j
    case JNull => ""
    case JTrue => "True"
    case JFalse => "False"
    case JString(text) => text
    case _ => RawText(j)
  }

  /** The properties of an object as (name, value) pairs, in document order. */
  function Entries(members: seq<Member>): (es: seq<(string, Json)>)
    ensures |es| == |members|
    ensures forall i :: 0 <= i < |members| ==> es[i] == (members[i].name, members[i].value)
  {
    seq(|members|, i requires 0 <= i < |members| => (members[i].name, members[i].value))
  }

  /** `Utf8JsonReader.GetInt32` on a number token: an integer literal within 32 bits;
      a fraction, an exponent or an overflow make it fail. */
  function Int32OfNumber(literal: string): (r: Option<int>)
    ensures r.Some? ==> Text.Int32Min <= r.value <= Text.Int32Max
  {
    if |literal| > 0 && literal[0] == '+' then None
    else Text.ParseSigned(literal, Text.Int32Min, Text.Int32Max)
  }
}
