/** `JsonStringDictionaryConverter` and `JsonStringStringDictionaryConverter`:
    dictionary fields that the API sends either as a JSON object or as a string
    holding JSON text. The nested JSON text is parsed by `parse`, which stands for
    `JsonSerializer.Deserialize` and yields `None` where it would throw. */
module JsonStringConverter {
  import opened Wrappers
  import opened Json
  import Dict

  /** What `JsonStringDictionaryConverter` stores for one property. */
  datatype Value =
    | VString(text: string)      // a string, unescaped
    | VNumber(literal: string)   // a number, as the double its literal denotes
    | VBool(b: bool)             // `true` or `false`
    | VRaw(raw: string)          // null, an array or an object, as its JSON text
    | VElement(element: Json)    // a property of JSON-encoded text, kept as a `JsonElement`

  /** The `ValueKind` switch of the object branch. */
  function Coerce(j: Json): (v: Value)
    ensures j.JString? <==> v.VString?
    ensures j.JString? ==> v.text == j.text
    ensures j.JNumber? <==> v.VNumber?
    ensures j.JNumber? ==> v.literal == j.literal
    ensures j.JTrue? <==> v == VBool(true)
    ensures j.JFalse? <==> v == VBool(false)
    ensures j.JNull? || j.JArray? || j.JObject? <==> v == VRaw(RawText(j))
  {
    match j
    case JString(text) => VString(text)
    case JNumber(literal) => VNumber(literal)
    case JTrue => VBool(true)
    case JFalse => VBool(false)
    case _ => VRaw(RawText(j))
  }

  function CoercedEntries(ms: seq<Member>): (es: seq<(string, Value)>)
    ensures |es| == |ms|
    ensures forall i :: 0 <= i < |ms| ==> es[i] == (ms[i].name, Coerce(ms[i].value))
  {
    seq(|ms|, i requires 0 <= i < |ms| => (ms[i].name, Coerce(ms[i].value)))
  }

  function ElementEntries(ms: seq<Member>): (es: seq<(string, Value)>)
    ensures |es| == |ms|
    ensures forall i :: 0 <= i < |ms| ==> es[i] == (ms[i].name, VElement(ms[i].value))
  {
    seq(|ms|, i requires 0 <= i < |ms| => (ms[i].name, VElement(ms[i].value)))
  }

  /** Whether `s` is text the converters decode: non-empty and parsing to a JSON object. */
  predicate EncodedObject(s: string, parse: string -> Option<Json>) {
    s != "" && parse(s).Some? && parse(s).value.JObject?
  }

  /** The dictionary `JsonStringDictionaryConverter.Read` returns for `token`. */
  function ObjectDictionary(token: Json, parse: string -> Option<Json>): (r: Option<map<string, Value>>)
    ensures token.JNull? || token == JString("") ==> r.None?
    ensures !(token.JString? || token.JObject?) ==> r.None?
    ensures token.JString? ==> (r.Some? <==> EncodedObject(token.text, parse))
    ensures token.JString? && EncodedObject(token.text, parse) ==>
              r == Some(Dict.FromEntries(ElementEntries(parse(token.text).value.members)))
              && r.value.Keys == set m | m in parse(token.text).value.members :: m.name
    ensures token.JObject? ==> r.Some? && r.value.Keys == set m | m in token.members :: m.name
  {
    match token
    case JString(s) =>
      if s == "" then None
      else
        (match parse(s)
         case Some(JObject(ms)) => Some(Dict.FromEntries(ElementEntries(ms)))
         case _ => None)
    case JObject(ms) => Some(Dict.FromEntries(CoercedEntries(ms)))
    case _ => None
  }

  /** `JsonStringDictionaryConverter.Read`. */
  method ReadDictionary(token: Json, parse: string -> Option<Json>) returns (r: Option<map<string, Value>>)
    ensures r == ObjectDictionary(token, parse)
  {
    if token.JNull? {
      return None;
    }
    if token.JString? {
      var s := token.text;
      if s == "" {
        return None;
      }
      match parse(s)
      case Some(JObject(ms)) => return Some(Dict.FromEntries(ElementEntries(ms)));
      case _ => return None;
    }
    if token.JObject? {
      var ms := token.members;
      var dict: map<string, Value> := map[];
      var i := 0;
      while i < |ms|
        invariant 0 <= i <= |ms|
        invariant dict == Dict.FromEntries(CoercedEntries(ms)[..i])
      {
        assert CoercedEntries(ms)[..i + 1][..i] == CoercedEntries(ms)[..i];
        dict := dict[ms[i].name := Coerce(ms[i].value)];
        i := i + 1;
      }
      assert CoercedEntries(ms)[..i] == CoercedEntries(ms);
      return Some(dict);
    }
    return None;
  }

  /** For an object token, a property name maps to the coerced value of the last
      property with that name: a repeated name overwrites the earlier value. */
  lemma ObjectLastWins(ms: seq<Member>, i: nat, parse: string -> Option<Json>)
    requires i < |ms|
    requires forall j :: i < j < |ms| ==> ms[j].name != ms[i].name
    ensures ObjectDictionary(JObject(ms), parse).Some?
    ensures ObjectDictionary(JObject(ms), parse).value[ms[i].name] == Coerce(ms[i].value)
  {
    Dict.LastWins(CoercedEntries(ms), i);
  }

  /** A non-empty string whose text does not parse as a JSON object yields no
      dictionary, and no error either. */
  lemma UnparsableText(s: string, parse: string -> Option<Json>)
    requires s != ""
    requires parse(s).None? || !parse(s).value.JObject?
    ensures ObjectDictionary(JString(s), parse).None?
  {
  }

  /** The dictionary `JsonStringStringDictionaryConverter.Read` returns for `token`: a
      value of the encoded text may be a string or `null` (kept as `None`); the
      properties of an object token become their `ToString()` text. */
  function StringDictionary(token: Json, parse: string -> Option<Json>): (r: Option<map<string, Option<string>>>)
    ensures token.JNull? || token == JString("") ==> r.None?
    ensures !(token.JString? || token.JObject?) ==> r.None?
    ensures token.JString? && !EncodedObject(token.text, parse) ==> r.None?
    ensures token.JString? && EncodedObject(token.text, parse) ==>
              var ms := parse(token.text).value.members;
              && (r.Some? <==> forall i :: 0 <= i < |ms| ==> ms[i].value.JString? || ms[i].value.JNull?)
              && (r.Some? ==> r == Some(Dict.FromEntries(NullableTextEntries(ms)))
                              && r.value.Keys == set m | m in ms :: m.name)
    ensures token.JObject? ==> r.Some? && r.value.Keys == set m | m in token.members :: m.name
  {
    match token
    case JString(s) =>
      if s == "" then None
      else
        (match parse(s)
         case Some(JObject(ms)) =>
           if forall i :: 0 <= i < |ms| ==> ms[i].value.JString? || ms[i].value.JNull? then
             Some(Dict.FromEntries(NullableTextEntries(ms)))
           else None
         case _ => None)
    case JObject(ms) => Some(Dict.FromEntries(TextEntries(ms)))
    case _ => None
  }

  function TextEntries(ms: seq<Member>): (es: seq<(string, Option<string>)>)
    ensures |es| == |ms|
    ensures forall i :: 0 <= i < |ms| ==> es[i] == (ms[i].name, Some(ToText(ms[i].value)))
  {
    seq(|ms|, i requires 0 <= i < |ms| => (ms[i].name, Some(ToText(ms[i].value))))
  }

  function NullableTextEntries(ms: seq<Member>): (es: seq<(string, Option<string>)>)
    requires forall i :: 0 <= i < |ms| ==> ms[i].value.JString? || ms[i].value.JNull?
    ensures |es| == |ms|
    ensures forall i :: 0 <= i < |ms| ==>
              es[i] == (ms[i].name, if ms[i].value.JString? then Some(ms[i].value.text) else None)
  {
    seq(|ms|, i requires 0 <= i < |ms| =>
      (ms[i].name, if ms[i].value.JString? then Some(ms[i].value.text) else None))
  }

  /** `JsonStringStringDictionaryConverter.Read`. */
  method ReadStringDictionary(token: Json, parse: string -> Option<Json>) returns (r: Option<map<string, Option<string>>>)
    ensures r == StringDictionary(token, parse)
  {
    if token.JNull? {
      return None;
    }
    if token.JString? {
      var s := token.text;
      if s == "" {
        return None;
      }
      match parse(s)
      case Some(JObject(ms)) =>
        if forall i :: 0 <= i < |ms| ==> ms[i].value.JString? || ms[i].value.JNull? {
          return Some(Dict.FromEntries(NullableTextEntries(ms)));
        }
        return None;
      case _ => return None;
    }
    if token.JObject? {
      var ms := token.members;
      var dict: map<string, Option<string>> := map[];
      var i := 0;
      while i < |ms|
        invariant 0 <= i <= |ms|
        invariant dict == Dict.FromEntries(TextEntries(ms)[..i])
      {
        assert TextEntries(ms)[..i + 1][..i] == TextEntries(ms)[..i];
        dict := dict[ms[i].name := Some(ToText(ms[i].value))];
        i := i + 1;
      }
      assert TextEntries(ms)[..i] == TextEntries(ms);
      return Some(dict);
    }
    return None;
  }

  /** For an object token every property becomes its textual rendering, the last
      property of a repeated name winning. */
  lemma StringObjectLastWins(ms: seq<Member>, i: nat, parse: string -> Option<Json>)
    requires i < |ms|
    requires forall j :: i < j < |ms| ==> ms[j].name != ms[i].name
    ensures StringDictionary(JObject(ms), parse).Some?
    ensures StringDictionary(JObject(ms), parse).value[ms[i].name] == Some(ToText(ms[i].value))
  {
    Dict.LastWins(TextEntries(ms), i);
  }
}
