/** The helpers of `BaseResource` that every resource client uses to turn an
    options object into query parameters. Reflection over the object's public
    properties is replaced by the list of its properties, in declaration order,
    each with the `ToString()` text of its value or `None` when the value is null. */
module Resources {
  import opened Wrappers
  import Text
  import Dict

  /** `ToCamelCase`: lower-cases the first character unless it already is lower case. */
  function ToCamelCase(s: string): (r: string)
    ensures |r| == |s|
    ensures s == "" || Text.IsLower(s[0]) ==> r == s
    ensures s != "" ==> r[0] == Text.ToLower(s[0]) && r[1..] == s[1..]
  {
    if s == "" || Text.IsLower(s[0]) then s else [Text.ToLower(s[0])] + s[1..]
  }

  /** Camel-casing twice is camel-casing once. */
  lemma CamelCaseIdempotent(s: string)
    ensures ToCamelCase(ToCamelCase(s)) == ToCamelCase(s)
  {
    if s != "" {
      assert ToCamelCase(s) == [ToCamelCase(s)[0]] + ToCamelCase(s)[1..];
    }
  }

  /** A public property of the options object. */
  datatype Property = Property(name: string, value: Option<string>)

  /** The `queryParams[key] = value` assignments the loop performs, in order. */
  function Assignments(props: seq<Property>): (es: seq<(string, string)>)
    ensures |es| <= |props|
    decreases |props|
  {
    if |props| == 0 then []
    else
      var last := props[|props| - 1];
      Assignments(props[..|props| - 1])
        + (if last.value.Some? then [(ToCamelCase(last.name), last.value.value)] else [])
  }

  /** The dictionary `BuildQueryParams` returns. */
  function QueryParams(parameters: Option<seq<Property>>): map<string, string> {
    match parameters
    case None => map[]
    case Some(props) => Dict.FromEntries(Assignments(props))
  }

  /** `BuildQueryParams`. */
  method BuildQueryParams(parameters: Option<seq<Property>>) returns (queryParams: map<string, string>)
    ensures queryParams == QueryParams(parameters)
  {
    if parameters.None? {
      return map[];
    }
    var props := parameters.value;
    queryParams := map[];
    var i := 0;
    while i < |props|
      invariant 0 <= i <= |props|
      invariant queryParams == Dict.FromEntries(Assignments(props[..i]))
    {
      assert props[..i + 1][..i] == props[..i];
      AssignmentsSnoc(props[..i + 1]);
      var property := props[i];
      if property.value.Some? {
        queryParams := queryParams[ToCamelCase(property.name) := property.value.value];
      }
      i := i + 1;
    }
    assert props[..i] == props;
  }

  /** The assignments of all properties are those of all but the last, then the last's. */
  lemma AssignmentsSnoc(props: seq<Property>)
    requires |props| > 0
    ensures var last := props[|props| - 1];
            QueryParams(Some(props)) ==
              if last.value.Some?
              then QueryParams(Some(props[..|props| - 1]))[ToCamelCase(last.name) := last.value.value]
              else QueryParams(Some(props[..|props| - 1]))
  {
    var last := props[|props| - 1];
    if last.value.Some? {
      Dict.Snoc(Assignments(props[..|props| - 1]), ToCamelCase(last.name), last.value.value);
    } else {
      calc {
        Assignments(props);
        Assignments(props[..|props| - 1]) + [];
        Assignments(props[..|props| - 1]);
      }
    }
  }

  /** The keys are the camel-cased names of the properties whose value is not null. */
  lemma {:induction false} QueryParamKeys(props: seq<Property>)
    ensures QueryParams(Some(props)).Keys
         == set i | 0 <= i < |props| && props[i].value.Some? :: ToCamelCase(props[i].name)
    decreases |props|
  {
    if |props| > 0 {
      var init := props[..|props| - 1];
      QueryParamKeys(init);
      AssignmentsSnoc(props);
      var last := props[|props| - 1];
      var want := set i | 0 <= i < |props| && props[i].value.Some? :: ToCamelCase(props[i].name);
      var wantInit := set i | 0 <= i < |init| && init[i].value.Some? :: ToCamelCase(init[i].name);
      var got := QueryParams(Some(props)).Keys;
      forall k | k in want ensures k in got {
        var i :| 0 <= i < |props| && props[i].value.Some? && ToCamelCase(props[i].name) == k;
        if i < |props| - 1 {
          assert init[i] == props[i];
          assert k in wantInit;
        }
      }
      forall k | k in got ensures k in want {
        if !(last.value.Some? && k == ToCamelCase(last.name)) {
          assert k in wantInit;
          var i :| 0 <= i < |init| && init[i].value.Some? && ToCamelCase(init[i].name) == k;
          assert props[i] == init[i];
        }
      }
    }
  }

  /** Each key holds the text of the last non-null property that camel-cases to it,
      so a later duplicate overwrites an earlier one. */
  lemma {:induction false} QueryParamLastWins(props: seq<Property>, i: nat)
    requires i < |props| && props[i].value.Some?
    requires forall j :: i < j < |props| && props[j].value.Some? ==>
               ToCamelCase(props[j].name) != ToCamelCase(props[i].name)
    ensures ToCamelCase(props[i].name) in QueryParams(Some(props))
    ensures QueryParams(Some(props))[ToCamelCase(props[i].name)] == props[i].value.value
    decreases |props|
  {
    var init := props[..|props| - 1];
    AssignmentsSnoc(props);
    if i < |props| - 1 {
      assert init[i] == props[i];
      QueryParamLastWins(init, i);
    }
  }
}
