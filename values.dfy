/**
 The values the query parser consumes and produces.

 `Raw` is a decoded query (what a query-string decoder hands over): a key is
 missing, holds one text, an array, or a nested object. `Val` is what the
 parsers produce and what a defaults tree holds. `undefined` is `Absent` on
 the input side and `Undef` on the output side.
 */
module Values {

  datatype Option<+T> = None | Some(value: T)

  /** The three ways a parse call can throw. */
  datatype Error =
    | ParserGivenObject    // a parse function reached with a nested object (or an array holding one)
    | TemplateGivenScalar  // a nested template reached with a string or a missing value
    | TrimOnArray          // `value.trim()` called on an array: a JS TypeError

  datatype Result<+T> = Ok(value: T) | Err(error: Error)

  /** A decoded query value. */
  datatype Raw =
    | Absent
    | Str(s: string)
    | Arr(items: seq<Raw>)
    | Obj(fields: map<string, Raw>)

  /** A parsed value (also the shape of a defaults tree). */
  datatype Val =
    | Undef
    | VStr(s: string)
    | VInt(i: int)
    | VBool(b: bool)
    | VArr(items: seq<Val>)
    | VObj(fields: map<string, Val>)

  /** An array every element of which is a string; the empty array is one. */
  predicate IsStringArray(v: Raw)
    ensures v == Arr([]) ==> IsStringArray(v)
    ensures IsStringArray(v) <==> v.Arr? && forall x :: x in v.items ==> x.Str?
  {
    v.Arr? && forall i :: 0 <= i < |v.items| ==> v.items[i].Str?
  }

  /** What a parse function may be given: nothing, a text, or a string array. */
  predicate IsLeafInput(v: Raw) {
    v.Absent? || v.Str? || IsStringArray(v)
  }

  /** The texts of a string array. */
  function Texts(items: seq<Raw>): (r: seq<string>)
    requires forall i :: 0 <= i < |items| ==> items[i].Str?
    ensures |r| == |items| && forall i :: 0 <= i < |items| ==> items[i] == Str(r[i])
  {
    seq(|items|, i requires 0 <= i < |items| => items[i].s)
  }

  /** A sequence of texts as raw array elements. */
  function StrRaws(xs: seq<string>): (r: seq<Raw>)
    ensures |r| == |xs| && forall i :: 0 <= i < |xs| ==> r[i] == Str(xs[i])
  {
    seq(|xs|, i requires 0 <= i < |xs| => Str(xs[i]))
  }

  /** A sequence of texts as parsed array elements. */
  function StrVals(xs: seq<string>): (r: seq<Val>)
    ensures |r| == |xs| && forall i :: 0 <= i < |xs| ==> r[i] == VStr(xs[i])
  {
    seq(|xs|, i requires 0 <= i < |xs| => VStr(xs[i]))
  }
}
