/**
 The leaf parsers of src/libs/parser.ts. Each takes what a query key holds
 (nothing, a text, or a string array) and gives a value or `undefined`.

 The regular expressions are tested on `value || ''` and `Number` is applied
 to `value`; JavaScript turns an array into the text of its elements joined
 by commas for both, which `LeafText` gives.
 */
module ScalarParsers {
  import opened Values
  import opened Text
  import opened Decimal

  /** `Number.MAX_SAFE_INTEGER`, 2^53 - 1. */
  const MAX_SAFE_INTEGER: int := 0x1F_FFFF_FFFF_FFFF

  /** The text a regular expression test sees for `value || ''`: nothing is
      the empty text, a text is itself, and an array is the text of its
      elements joined by commas (so the empty array is the empty text and a
      one-element array is its element). */
  function LeafText(v: Raw): (r: string)
    requires IsLeafInput(v)
    ensures v.Absent? ==> r == ""
    ensures v.Str? ==> r == v.s
    ensures v.Arr? && |v.items| == 0 ==> r == ""
    ensures v.Arr? && |v.items| == 1 ==> r == v.items[0].s
  {
    match v
    case Absent => ""
    case Str(s) => s
    case Arr(items) => Join(Texts(items), ',')
  }

  /** Splitting the text of a non-empty array of comma-free texts at its
      commas gives the elements back: the joined text loses nothing. */
  lemma LeafTextPieces(v: Raw)
    requires IsStringArray(v) && |v.items| >= 1
    requires forall i :: 0 <= i < |v.items| ==> ',' !in v.items[i].s
    ensures Split(LeafText(v), ',') == Texts(v.items)
  {
    SplitJoin(Texts(v.items), ',');
  }

  /** `isSafeInteger` on the value of a text the integer pattern accepts.
      Such a value is an integer, and its double rounds to a magnitude of
      at least 2^53 exactly when the decimal value exceeds 2^53 - 1, so the
      check is a bound on the decimal value: the magnitude is below 2^53. */
  predicate IsSafeInteger(x: int)
    ensures IsSafeInteger(x) <==> -0x20_0000_0000_0000 < x < 0x20_0000_0000_0000
    ensures IsSafeInteger(x) ==> -MAX_SAFE_INTEGER <= -x <= MAX_SAFE_INTEGER
  {
    -MAX_SAFE_INTEGER <= x <= MAX_SAFE_INTEGER
  }

  /** `matchNatural`: `/^[0-9][0-9]*$/` on `value || ''`. Nothing, the empty
      text and the empty array never match, nor does a text with a sign. */
  predicate MatchNatural(v: Raw)
    requires IsLeafInput(v)
    ensures MatchNatural(v) ==> !v.Absent? && LeafText(v) != "" && LeafText(v)[0] != '-'
  {
    IsDigits(LeafText(v))
  }

  /** `matchInteger`: `/^(-)?[0-9][0-9]*$/` on `value || ''`: either the
      natural pattern, or a minus sign followed by a text it matches. */
  predicate MatchInteger(v: Raw)
    requires IsLeafInput(v)
    ensures MatchNatural(v) ==> MatchInteger(v)
    ensures MatchInteger(v) <==> MatchNatural(v) || (LeafText(v) != "" && LeafText(v)[0] == '-' && MatchNatural(Str(LeafText(v)[1..])))
  {
    IsIntegerText(LeafText(v))
  }

  /** `integerParser`: the value of an integer text within the safe range. */
  function IntegerParser(v: Raw): (r: Val)
    requires IsLeafInput(v)
    ensures r != Undef <==> MatchInteger(v) && IsSafeInteger(IntegerValue(LeafText(v)))
    ensures r != Undef ==> r.VInt? && IsSafeInteger(r.i) && r.i == IntegerValue(LeafText(v))
  {
    if MatchInteger(v) && IsSafeInteger(IntegerValue(LeafText(v))) then VInt(IntegerValue(LeafText(v))) else Undef
  }

  /** `naturalParser`: the value of a digit text within the safe range. */
  function NaturalParser(v: Raw): (r: Val)
    requires IsLeafInput(v)
    ensures r != Undef <==> MatchNatural(v) && DigitsValue(LeafText(v)) <= MAX_SAFE_INTEGER
    ensures r != Undef ==> r.VInt? && 0 <= r.i <= MAX_SAFE_INTEGER && r.i == DigitsValue(LeafText(v))
  {
    if MatchNatural(v) && IsSafeInteger(IntegerValue(LeafText(v))) then VInt(IntegerValue(LeafText(v))) else Undef
  }

  /** `numberParser`: `Number(value || undefined)`, `undefined` for NaN.
      `toNumber` is JavaScript's `Number` on a text, `None` standing for NaN;
      only the missing and empty cases are fixed here. */
  function NumberParser(v: Raw, toNumber: string -> Option<Val>): (r: Val)
    requires IsLeafInput(v)
    ensures v.Absent? || v == Str("") ==> r == Undef
  {
    if v.Absent? || v == Str("") then Undef
    else match toNumber(LeafText(v))
      case None => Undef
      case Some(x) => x
  }

  /** `booleanParser`: the trimmed literals "true" and "false"; anything else
      falls off the end of the function. An array has no `trim`. */
  function BooleanParser(v: Raw): (r: Result<Val>)
    requires IsLeafInput(v)
    ensures r.Err? <==> v.Arr?
    ensures r.Err? ==> r.error == TrimOnArray
    ensures r.Ok? ==> r.value == Undef || r.value.VBool?
  {
    match v
    case Absent => Ok(Undef)
    case Arr(_) => Err(TrimOnArray)
    case Str(s) =>
      if Trim(s) == "true" then Ok(VBool(true))
      else if Trim(s) == "false" then Ok(VBool(false))
      else Ok(Undef)
  }

  /** A missing or empty value is not a number of any kind: `value || ''`
      fails both patterns and `Number(undefined)` is NaN. */
  lemma EmptyIsUndefined(toNumber: string -> Option<Val>)
    ensures IntegerParser(Absent) == Undef && IntegerParser(Str("")) == Undef
    ensures NaturalParser(Absent) == Undef && NaturalParser(Str("")) == Undef
    ensures NumberParser(Absent, toNumber) == Undef && NumberParser(Str(""), toNumber) == Undef
  {
  }

  /** Every natural is an integer of the same value. */
  lemma NaturalIsInteger(v: Raw)
    requires IsLeafInput(v)
    requires NaturalParser(v) != Undef
    ensures IntegerParser(v) == NaturalParser(v)
  {
    var t := LeafText(v);
    assert t[0] != '-';
  }

  /** Parsing the rendering of a safe integer gives the integer back. */
  lemma IntegerRoundTrip(n: int)
    requires IsSafeInteger(n)
    ensures IntegerParser(Str(IntToString(n))) == VInt(n)
  {
    IntRoundTrip(n);
  }

  /** Parsing the rendering of a safe natural gives it back, as a natural too. */
  lemma NaturalRoundTrip(n: nat)
    requires n <= MAX_SAFE_INTEGER
    ensures NaturalParser(Str(NatToString(n))) == VInt(n)
    ensures IntegerParser(Str(NatToString(n))) == VInt(n)
  {
    NatRoundTrip(n);
  }

  /** A text with a minus sign is never a natural, and a natural is never
      negative; an integer keeps its sign. */
  lemma NaturalRejectsSign(s: string)
    requires s != [] && s[0] == '-'
    ensures NaturalParser(Str(s)) == Undef
  {
  }

  /** The number in a one-element array is read as if it were the text
      itself; an array of two or more elements joins with a comma and is
      never an integer. */
  lemma {:induction false} ArrayOfOneText(s: string, xs: seq<string>)
    ensures IntegerParser(Arr([Str(s)])) == IntegerParser(Str(s))
    ensures NaturalParser(Arr([Str(s)])) == NaturalParser(Str(s))
    ensures |xs| >= 2 ==> IntegerParser(Arr(StrRaws(xs))) == Undef
  {
    assert Texts([Str(s)]) == [s];
    if |xs| >= 2 {
      var t := LeafText(Arr(StrRaws(xs)));
      assert Texts(StrRaws(xs)) == xs;
      assert t == xs[0] + [','] + Join(xs[1..], ',');
      assert t[|xs[0]|] == ',';
      assert !IsDigit(t[|xs[0]|]);
      assert !IsIntegerText(t) by {
        if |t| >= 2 && t[0] == '-' {
          assert |xs[0]| >= 1;
          assert t[1..][|xs[0]| - 1] == ',';
        }
      }
    }
  }

  /** Examples from the repository's tests: "-2" is an integer and not a
      natural, "12.34" is neither, "123456" is a natural. */
  lemma SignAndFractionExamples()
    ensures NaturalParser(Str("-2")) == Undef
    ensures IntegerParser(Str("-2")) == VInt(-2)
    ensures NaturalParser(Str("12.34")) == Undef && IntegerParser(Str("12.34")) == Undef
    ensures NaturalParser(Str("123456")) == VInt(123456)
  {
    assert "-2"[1..] == "2";
    assert DigitsValue("2") == 2 by { assert "2"[..0] == ""; }
    assert !IsDigit("12.34"[2]);
    NaturalRoundTrip(123456);
    assert NatToString(123456) == "123456";
  }

  /** `booleanParser` yields a boolean exactly for the two trimmed literals. */
  lemma BooleanLiterals(s: string, b: bool)
    ensures BooleanParser(Str(s)) == Ok(VBool(b)) <==> Trim(s) == (if b then "true" else "false")
    ensures BooleanParser(Str(s)) == Ok(Undef) <==> Trim(s) != "true" && Trim(s) != "false"
  {
  }

  /** Examples from the repository's tests: "false" is false and "1" is not a
      boolean; surrounding white space is ignored. */
  lemma BooleanExamples()
    ensures BooleanParser(Str("false")) == Ok(VBool(false))
    ensures BooleanParser(Str(" true\n")) == Ok(VBool(true))
    ensures BooleanParser(Str("1")) == Ok(Undef)
    ensures BooleanParser(Absent) == Ok(Undef)
  {
    assert Trim("false") == "false" by { TrimKeepsTrimmed("false"); }
    assert Trim("1") == "1" by { TrimKeepsTrimmed("1"); }
    assert Trim(" true\n") == "true" by { TrimExample(); }
  }
}
