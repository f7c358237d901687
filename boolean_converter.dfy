/** The `BooleanConverter` and `NullableBooleanConverter` JSON converters: booleans
    that the API may send as `true`/`false`, as numbers (SQLite 0/1) or as strings. */
module BooleanConverter {
  import opened Wrappers
  import opened Json
  import Text

  /** The `JsonException`s the readers raise. */
  datatype ConversionError =
    | NotInt32(literal: string)   // a number token that `GetInt32` rejects
    | NotBoolean(text: string)    // a string that is neither a boolean nor an integer
    | UnexpectedToken             // any other token kind

  predicate IsSpaceOrNul(c: char) {
    Text.IsWhiteSpace(c) || c == '\0'
  }

  /** `bool.TryParse`: `True` or `False` in any letter case, ignoring white space
      and NUL characters at both ends. */
  function ParseBoolean(s: string): Option<bool> {
    var t := Text.TrimBy(s, IsSpaceOrNul);
    if Text.EqualsIgnoreCase(t, "True") then Some(true)
    else if Text.EqualsIgnoreCase(t, "False") then Some(false)
    else None
  }

  /** `BooleanConverter.Read`. */
  function Read(token: Json): (r: Result<bool, ConversionError>)
    ensures token.JNull? || token.JArray? || token.JObject? ==> r == Failure(UnexpectedToken)
    ensures r.Success? ==> token.JTrue? || token.JFalse? || token.JNumber? || token.JString?
  {
    match token
    case JTrue => Success(true)
    case JFalse => Success(false)
    case JNumber(literal) =>
      (match Int32OfNumber(literal)
       case Some(n) => Success(n != 0)
       case None => Failure(NotInt32(literal)))
    case JString(s) =>
      (match ParseBoolean(s)
       case Some(b) => Success(b)
       case None =>
         match Text.ParseInteger(s, Text.Int32Min, Text.Int32Max)
         case Some(n) => Success(n != 0)
         case None => Failure(NotBoolean(s)))
    case _ => Failure(UnexpectedToken)
  }

  /** `BooleanConverter.Write`: a boolean literal. */
  function Write(value: bool): (token: Json)
    ensures token.JTrue? || token.JFalse?
  {
    if value then JTrue else JFalse
  }

  /** `NullableBooleanConverter.Read`. */
  function ReadNullable(token: Json): (r: Result<Option<bool>, ConversionError>)
    ensures token.JNull? || token == JString("") ==> r == Success(None)
    ensures r == Success(None) ==> token.JNull? || token == JString("")
  {
    match token
    case JNull => Success(None)
    case JTrue => Success(Some(true))
    case JFalse => Success(Some(false))
    case JNumber(literal) =>
      (match Int32OfNumber(literal)
       case Some(n) => Success(Some(n != 0))
       case None => Failure(NotInt32(literal)))
    case JString(s) =>
      if s == "" then Success(None)
      else
        (match ParseBoolean(s)
         case Some(b) => Success(Some(b))
         case None =>
           match Text.ParseInteger(s, Text.Int32Min, Text.Int32Max)
           case Some(n) => Success(Some(n != 0))
           case None => Failure(NotBoolean(s)))
    case _ => Failure(UnexpectedToken)
  }

  /** `NullableBooleanConverter.Write`: a boolean literal, or `null` when there is no value. */
  function WriteNullable(value: Option<bool>): (token: Json)
    ensures value.None? <==> token.JNull?
  {
    match value
    case Some(b) => Write(b)
    case None => JNull
  }

  /** Reading back what `Write` wrote gives the original value. */
  lemma ReadWrite(value: bool)
    ensures Read(Write(value)) == Success(value)
  {
  }

  /** Reading back what the nullable `Write` wrote gives the original value. */
  lemma ReadNullableWriteNullable(value: Option<bool>)
    ensures ReadNullable(WriteNullable(value)) == Success(value)
  {
  }

  /** A number token is true exactly when its 32-bit value is not zero. */
  lemma NumberToken(literal: string, n: int)
    requires Int32OfNumber(literal) == Some(n)
    ensures Read(JNumber(literal)) == Success(n != 0)
  {
  }

  /** A string is read as a boolean literal first, and only then as an integer. */
  lemma StringToken(s: string)
    ensures ParseBoolean(s).Some? ==> Read(JString(s)) == Success(ParseBoolean(s).value)
    ensures ParseBoolean(s).None? && Text.ParseInteger(s, Text.Int32Min, Text.Int32Max).Some? ==>
              Read(JString(s)) == Success(Text.ParseInteger(s, Text.Int32Min, Text.Int32Max).value != 0)
    ensures ParseBoolean(s).None? && Text.ParseInteger(s, Text.Int32Min, Text.Int32Max).None? ==>
              Read(JString(s)) == Failure(NotBoolean(s))
  {
  }

  /** Apart from `null` and the empty string, the nullable reader agrees with the plain one. */
  lemma NullableAgrees(token: Json)
    requires !token.JNull? && token != JString("")
    ensures ReadNullable(token).Success? <==> Read(token).Success?
    ensures Read(token).Success? ==> ReadNullable(token) == Success(Some(Read(token).value))
    ensures Read(token).Failure? ==> ReadNullable(token) == Failure(Read(token).error)
  {
    match token
    case JString(s) =>
      assert s != "";
    case _ =>
  }

  /** Letter case and padding are ignored for the boolean literals. */
  lemma PaddedLiteral(t: string)
    requires Text.EqualsIgnoreCase(t, "True")
    ensures Read(JString(" " + t + " ")) == Success(true)
    ensures ReadNullable(JString(" " + t + " ")) == Success(Some(true))
  {
    assert Text.ToUpper(t[0]) == Text.ToUpper("True"[0]);
    assert Text.ToUpper(t[3]) == Text.ToUpper("True"[3]);
    Text.TrimOnePad(t, IsSpaceOrNul, ' ');
  }

  /** A string holding a padded 32-bit integer is no boolean literal, so it is read as
      the integer compared with zero. */
  lemma IntegerString(n: int)
    requires Text.Int32Min <= n <= Text.Int32Max
    ensures Read(JString(" " + Text.DecimalString(n) + " ")) == Success(n != 0)
  {
    PaddedDecimalIsNoLiteral(n);
    PaddedDecimalParses(n);
  }

  lemma PaddedDecimalIsNoLiteral(n: int)
    ensures ParseBoolean(" " + Text.DecimalString(n) + " ") == None
  {
    var d := Text.DecimalString(n);
    assert " " + d + " " == [' '] + d + [' '];
    Text.TrimOnePad(d, IsSpaceOrNul, ' ');
    assert Text.ToUpper(d[0]) != Text.ToUpper("True"[0]);
    assert Text.ToUpper(d[0]) != Text.ToUpper("False"[0]);
  }

  lemma PaddedDecimalParses(n: int)
    requires Text.Int32Min <= n <= Text.Int32Max
    ensures Text.ParseInteger(" " + Text.DecimalString(n) + " ", Text.Int32Min, Text.Int32Max) == Some(n)
  {
    var d := Text.DecimalString(n);
    assert " " + d + " " == [' '] + d + [' '];
    Text.TrimOnePad(d, Text.IsNumberSpace, ' ');
    Text.ParseDecimalString(n, Text.Int32Min, Text.Int32Max);
  }

  /** An integer string ending in NUL is read as the integer compared with zero, as
      `int.TryParse` accepts trailing NUL characters. */
  lemma NulTerminatedInteger(n: int)
    requires Text.Int32Min <= n <= Text.Int32Max
    ensures Read(JString(Text.DecimalString(n) + ['\0'])) == Success(n != 0)
  {
    var d := Text.DecimalString(n);
    NulTerminatedIsNoLiteral(d);
    NulTerminatedParses(n);
    StringToken(d + ['\0']);
  }

  /** A decimal 32-bit integer followed by NUL parses back to the integer. */
  lemma NulTerminatedParses(n: int)
    requires Text.Int32Min <= n <= Text.Int32Max
    ensures Text.ParseInteger(Text.DecimalString(n) + ['\0'], Text.Int32Min, Text.Int32Max) == Some(n)
  {
    Text.TrailingNulIgnored(Text.DecimalString(n), Text.Int32Min, Text.Int32Max);
    Text.ParseDecimalString(n, Text.Int32Min, Text.Int32Max);
  }

  lemma NulTerminatedIsNoLiteral(d: string)
    requires |d| >= 1 && (Text.IsDigit(d[0]) || d[0] == '-') && !IsSpaceOrNul(d[|d| - 1])
    ensures ParseBoolean(d + ['\0']).None?
  {
    NulTrimmed(d);
    NumberIsNoLiteral(d);
  }

  /** A trailing NUL is trimmed like white space. */
  lemma NulTrimmed(d: string)
    requires |d| >= 1 && !IsSpaceOrNul(d[0]) && !IsSpaceOrNul(d[|d| - 1])
    ensures Text.TrimBy(d + ['\0'], IsSpaceOrNul) == d
  {
    var s := d + ['\0'];
    assert Text.TrimStartBy(s, IsSpaceOrNul) == s by { assert s[0] == d[0]; }
    assert s[..|s| - 1] == d;
    assert Text.TrimEndBy(d, IsSpaceOrNul) == d;
  }

  /** Text starting with a digit or a minus sign is no boolean literal. */
  lemma NumberIsNoLiteral(t: string)
    requires |t| >= 1 && (Text.IsDigit(t[0]) || t[0] == '-')
    ensures !Text.EqualsIgnoreCase(t, "True") && !Text.EqualsIgnoreCase(t, "False")
  {
    assert Text.ToUpper(t[0]) != Text.ToUpper("True"[0]);
    assert Text.ToUpper(t[0]) != Text.ToUpper("False"[0]);
  }

  /** The JSON string `"1\u0000"` reads as true. */
  lemma NulTerminatedOne()
    ensures Read(JString("1\0")) == Success(true)
  {
    assert Text.DecimalString(1) + ['\0'] == "1\0";
    NulTerminatedInteger(1);
  }

  /** A word that is neither a literal nor an integer is an error. */
  lemma RejectedWord()
    ensures Read(JString("yes")) == Failure(NotBoolean("yes"))
  {
    YesIsNoLiteral();
    YesIsNoInteger();
  }

  /** `"yes"` is no boolean literal. */
  lemma YesIsNoLiteral()
    ensures ParseBoolean("yes").None?
  {
    assert Text.TrimBy("yes", IsSpaceOrNul) == "yes" by {
      assert Text.TrimStartBy("yes", IsSpaceOrNul) == "yes" by { assert !IsSpaceOrNul('y'); }
      assert Text.TrimEndBy("yes", IsSpaceOrNul) == "yes" by { assert !IsSpaceOrNul('s'); }
    }
    assert !Text.EqualsIgnoreCase("yes", "True") && !Text.EqualsIgnoreCase("yes", "False");
  }

  /** `"yes"` is no integer. */
  lemma YesIsNoInteger()
    ensures Text.ParseInteger("yes", Text.Int32Min, Text.Int32Max).None?
  {
    assert Text.TrimEndBy("yes", Text.IsNul) == "yes";
    assert Text.TrimBy("yes", Text.IsNumberSpace) == "yes" by {
      assert Text.TrimStartBy("yes", Text.IsNumberSpace) == "yes";
      assert Text.TrimEndBy("yes", Text.IsNumberSpace) == "yes";
    }
    assert !Text.AllDigits("yes") by { assert !Text.IsDigit("yes"[0]); }
  }

  /** A number with a fraction is not a 32-bit integer, so it is an error. */
  lemma RejectedFraction()
    ensures Read(JNumber("1.5")) == Failure(NotInt32("1.5"))
  {
    assert !Text.AllDigits("1.5") by { assert !Text.IsDigit("1.5"[1]); }
  }
}
