/**
 The parse-function factories of the `Parsers` class (src/core/index.ts).
 A factory call returns a closure. Here a `Coercer` value names the closure
 and what it captured, `Apply` runs it, and `ParserOf` is the closure as a
 function value that a template can hold.

 What the closures borrow from the JavaScript runtime is captured as a
 function value: `Number` on a text, the loose equality `==` between an
 enum candidate and a text, and `RegExp.prototype.test`.
 */
module Parsers {
  import opened Values
  import opened Text
  import opened Decimal
  import opened ScalarParsers

  datatype Coercer =
    | StringC(trim: bool)                                   // Parsers.string(trim)
    | NumberC(toNumber: string -> Option<Val>)              // Parsers.number()
    | BooleanC                                              // Parsers.boolean()
    | ArrayC(mapper: Option<string -> Val>)                 // Parsers.array(mapper?)
    | IntegerC                                              // Parsers.integer()
    | NaturalC                                              // Parsers.natural()
    | EnumC(candidates: seq<Val>, looseEquals: (Val, string) -> bool)  // Parsers.enum(array)
    | RegExpC(test: string -> bool)                         // Parsers.regExp(regExp)

  /** The pieces `Parsers.array` works on: a text split on commas, or the
      elements of a string array. */
  function Pieces(v: Raw): (r: seq<string>)
    requires v.Str? || IsStringArray(v)
  {
    if v.Str? then Split(v.s, ',') else Texts(v.items)
  }

  /** `.filter((d) => d !== undefined)`: the defined values, in order. */
  function DropUndef(vs: seq<Val>): (r: seq<Val>)
    ensures |r| <= |vs|
    ensures Undef !in r
    ensures forall x :: x in r <==> x in vs && x != Undef
    ensures Undef !in vs ==> r == vs
  {
    if vs == [] then []
    else if vs[0] == Undef then DropUndef(vs[1..])
    else [vs[0]] + DropUndef(vs[1..])
  }

  /** Dropping `undefined` keeps the order: it distributes over concatenation. */
  lemma {:induction false} DropUndefAppend(a: seq<Val>, b: seq<Val>)
    ensures DropUndef(a + b) == DropUndef(a) + DropUndef(b)
  {
    if a != [] {
      assert (a + b)[0] == a[0];
      assert (a + b)[1..] == a[1..] + b;
      DropUndefAppend(a[1..], b);
    } else {
      assert a + b == b;
    }
  }

  /** The index of the first candidate loosely equal to `t`: `Array.prototype.find`. */
  function FirstMatch(cands: seq<Val>, eq: (Val, string) -> bool, t: string): (r: Option<nat>)
    ensures r.Some? ==> r.value < |cands| && eq(cands[r.value], t)
    ensures r.Some? ==> forall j :: 0 <= j < r.value ==> !eq(cands[j], t)
    ensures r.None? <==> forall j :: 0 <= j < |cands| ==> !eq(cands[j], t)
  {
    if cands == [] then None
    else if eq(cands[0], t) then Some(0)
    else match FirstMatch(cands[1..], eq, t)
      case None => None
      case Some(i) => Some(i + 1)
  }

  /** Runs the parse function `c` on what a query key holds. A parse
      function never throws on a missing value or a single text; only
      `.trim()` on a string array does. */
  function Apply(c: Coercer, v: Raw): (r: Result<Val>)
    requires IsLeafInput(v)
    ensures v.Absent? || v.Str? ==> r.Ok?
    ensures r.Err? ==> r.error == TrimOnArray && v.Arr?
  {
    match c
    case StringC(trim) => StringParse(trim, v)
    case NumberC(toNumber) => Ok(NumberParser(v, toNumber))
    case BooleanC => BooleanParser(v)
    case IntegerC => Ok(IntegerParser(v))
    case NaturalC => Ok(NaturalParser(v))
    case ArrayC(mapper) => Ok(ArrayParse(mapper, v))
    case EnumC(cands, eq) => EnumParse(cands, eq, v)
    case RegExpC(test) => Ok(RegExpParse(test, v))
  }

  /** The closure a factory call returns. The walker never hands a parse
      function a nested object; that case is given the walker's own error. */
  function ParserOf(c: Coercer): (p: Raw -> Result<Val>)
    ensures forall v :: IsLeafInput(v) ==> p(v) == Apply(c, v)
  {
    v => if IsLeafInput(v) then Apply(c, v) else Err(ParserGivenObject)
  }

  /** `Parsers.string(trim)`: `value || ''`, then trimmed when asked. */
  function StringParse(trim: bool, v: Raw): (r: Result<Val>)
    requires IsLeafInput(v)
    ensures r.Err? <==> trim && v.Arr?
    ensures r.Ok? ==> r.value != Undef
  {
    match v
    case Absent => Ok(VStr(""))
    case Str(s) => Ok(VStr(if trim then Trim(s) else s))
    case Arr(items) => if trim then Err(TrimOnArray) else Ok(VArr(StrVals(Texts(items))))
  }

  /** `Parsers.array(mapper)`: `undefined` for a missing value; otherwise the
      pieces, each run through the mapper when there is one, without the
      `undefined` results. */
  function ArrayParse(mapper: Option<string -> Val>, v: Raw): (r: Val)
    requires IsLeafInput(v)
    ensures v.Absent? <==> r == Undef
    ensures r != Undef ==> r.VArr? && |r.items| <= |Pieces(v)| && Undef !in r.items
  {
    if v.Absent? then Undef
    else
      var ps := Pieces(v);
      match mapper
      case None =>
        assert Undef !in StrVals(ps);
        VArr(StrVals(ps))
      case Some(m) =>
        VArr(DropUndef(seq(|ps|, i requires 0 <= i < |ps| => m(ps[i]))))
  }

  /** `Parsers.enum(cands)`: `undefined` stays; otherwise the first candidate
      loosely equal to the trimmed text, or `undefined`. */
  function EnumParse(cands: seq<Val>, eq: (Val, string) -> bool, v: Raw): (r: Result<Val>)
    requires IsLeafInput(v)
    ensures r.Err? <==> v.Arr?
    ensures r.Ok? ==> r.value == Undef || r.value in cands
  {
    match v
    case Absent => Ok(Undef)
    case Arr(_) => Err(TrimOnArray)
    case Str(s) =>
      match FirstMatch(cands, eq, Trim(s))
      case None => Ok(Undef)
      case Some(i) => Ok(cands[i])
  }

  /** `Parsers.regExp(test)`: the value itself when the pattern accepts its
      text, `undefined` otherwise. */
  function RegExpParse(test: string -> bool, v: Raw): (r: Val)
    requires IsLeafInput(v)
    ensures r == Undef || r == (match v case Str(s) => VStr(s) case Arr(items) => VArr(StrVals(Texts(items))) case Absent => Undef)
    ensures v.Absent? ==> r == Undef
  {
    match v
    case Absent => Undef
    case Str(s) => if test(s) then VStr(s) else Undef
    case Arr(items) => if test(LeafText(v)) then VArr(StrVals(Texts(items))) else Undef
  }

  /** A parse function used as the mapper of `Parsers.array`: it is called
      with one piece, a text, so it never throws. */
  function AsMapper(c: Coercer): string -> Val {
    s => Apply(c, Str(s)).value
  }

  /** `Apply` dispatches to the closure of each factory. */
  lemma ApplyCases(c: Coercer, v: Raw)
    requires IsLeafInput(v)
    ensures c.StringC? ==> Apply(c, v) == StringParse(c.trim, v)
    ensures c.NumberC? ==> Apply(c, v) == Ok(NumberParser(v, c.toNumber))
    ensures c.BooleanC? ==> Apply(c, v) == BooleanParser(v)
    ensures c.IntegerC? ==> Apply(c, v) == Ok(IntegerParser(v))
    ensures c.NaturalC? ==> Apply(c, v) == Ok(NaturalParser(v))
    ensures c.ArrayC? ==> Apply(c, v) == Ok(ArrayParse(c.mapper, v))
    ensures c.EnumC? ==> Apply(c, v) == EnumParse(c.candidates, c.looseEquals, v)
    ensures c.RegExpC? ==> Apply(c, v) == Ok(RegExpParse(c.test, v))
  {
  }

  /** Only `Parsers.string` gives a value for a missing key ("", as
      `value || ''`); every other parse function gives `undefined`. */
  lemma AbsentGivesUndefined(c: Coercer)
    ensures c.StringC? ==> Apply(c, Absent) == Ok(VStr(""))
    ensures !c.StringC? <==> Apply(c, Absent) == Ok(Undef)
  {
  }

  /** `Parsers.string` never yields `undefined`: absent or empty input gives
      "", a text gives itself or, with `trim`, its trimmed form. */
  lemma StringNeverUndefined(trim: bool, v: Raw)
    requires IsLeafInput(v)
    ensures Apply(StringC(trim), v).Ok? ==> Apply(StringC(trim), v).value != Undef
    ensures v.Absent? || v == Str("") ==> Apply(StringC(trim), v) == Ok(VStr(""))
    ensures v.Str? && trim ==> Apply(StringC(trim), v) == Ok(VStr(Trim(v.s)))
    ensures v.Str? && !trim ==> Apply(StringC(trim), v) == Ok(VStr(v.s))
  {
    if v == Str("") && trim {
      TrimKeepsTrimmed("");
    }
  }

  /** `Parsers.array` on a text: without a mapper, one piece per comma plus
      one; with a mapper, the defined results, never more than the pieces. */
  lemma {:induction false} ArrayOfText(m: Option<string -> Val>, s: string)
    ensures Apply(ArrayC(m), Str(s)).Ok? && Apply(ArrayC(m), Str(s)).value.VArr?
    ensures m.None? ==> Apply(ArrayC(m), Str(s)).value.items == StrVals(Split(s, ','))
    ensures |Apply(ArrayC(m), Str(s)).value.items| <= Count(s, ',') + 1
    ensures m.None? ==> |Apply(ArrayC(m), Str(s)).value.items| == Count(s, ',') + 1
    ensures Undef !in Apply(ArrayC(m), Str(s)).value.items
  {
    var ps := Split(s, ',');
    if m.None? {
      assert Undef !in StrVals(ps);
    }
  }

  /** A comma-separated text and the string array of its pieces parse alike:
      `'1,2,3'` and `['1','2','3']` give the same array. */
  lemma {:induction false} ArrayTextEqualsArray(m: Option<string -> Val>, xs: seq<string>)
    requires |xs| >= 1
    requires forall i :: 0 <= i < |xs| ==> ',' !in xs[i]
    ensures Apply(ArrayC(m), Str(Join(xs, ','))) == Apply(ArrayC(m), Arr(StrRaws(xs)))
  {
    SplitJoin(xs, ',');
    assert Pieces(Str(Join(xs, ','))) == xs;
    assert Pieces(Arr(StrRaws(xs))) == Texts(StrRaws(xs)) == xs;
  }

  /** `natural()` as a mapper reads a rendered natural back. */
  lemma NaturalMapper(n: nat)
    requires n <= MAX_SAFE_INTEGER
    ensures AsMapper(NaturalC)(NatToString(n)) == VInt(n)
  {
    ApplyCases(NaturalC, Str(NatToString(n)));
    NaturalRoundTrip(n);
  }

  /** When the mapper gives a value for every piece, `Parsers.array` keeps
      them all: one output element per piece, in order. */
  lemma ArrayMapsEveryPiece(m: string -> Val, v: Raw)
    requires IsLeafInput(v) && !v.Absent?
    requires forall i :: 0 <= i < |Pieces(v)| ==> m(Pieces(v)[i]) != Undef
    ensures ArrayParse(Some(m), v).VArr?
    ensures |ArrayParse(Some(m), v).items| == |Pieces(v)|
    ensures forall i :: 0 <= i < |Pieces(v)| ==> ArrayParse(Some(m), v).items[i] == m(Pieces(v)[i])
  {
    var ps := Pieces(v);
    var vals := seq(|ps|, i requires 0 <= i < |ps| => m(ps[i]));
    assert Undef !in vals;
  }

  lemma OneTwoThreeText()
    ensures Pieces(Str("1,2,3")) == ["1", "2", "3"]
  {
    var xs := ["1", "2", "3"];
    assert Join(xs, ',') == "1,2,3";
    SplitJoin(xs, ',');
  }

  lemma OneTwoThreeArray()
    ensures IsStringArray(Arr([Str("1"), Str("2"), Str("3")]))
    ensures Pieces(Arr([Str("1"), Str("2"), Str("3")])) == ["1", "2", "3"]
  {
    var items := [Str("1"), Str("2"), Str("3")];
    assert items[0].Str? && items[1].Str? && items[2].Str?;
    var r := Texts(items);
    assert r[0] == "1" && r[1] == "2" && r[2] == "3";
  }

  lemma OneTwoThreeNaturals()
    ensures AsMapper(NaturalC)("1") == VInt(1)
    ensures AsMapper(NaturalC)("2") == VInt(2)
    ensures AsMapper(NaturalC)("3") == VInt(3)
  {
    assert NatToString(1) == "1" && NatToString(2) == "2" && NatToString(3) == "3";
    NaturalMapper(1);
    NaturalMapper(2);
    NaturalMapper(3);
  }

  /** Example from the repository's tests: `array(natural())` turns
      `'1,2,3'` into `[1, 2, 3]`. */
  lemma ArrayOfNaturalsText()
    ensures ArrayParse(Some(AsMapper(NaturalC)), Str("1,2,3")) == VArr([VInt(1), VInt(2), VInt(3)])
  {
    var m := AsMapper(NaturalC);
    OneTwoThreeText();
    OneTwoThreeNaturals();
    ArrayMapsEveryPiece(m, Str("1,2,3"));
    var r := ArrayParse(Some(m), Str("1,2,3")).items;
    assert r[0] == VInt(1) && r[1] == VInt(2) && r[2] == VInt(3);
  }

  /** The same test with the array `['1','2','3']`. */
  lemma ArrayOfNaturalsArray()
    ensures IsStringArray(Arr([Str("1"), Str("2"), Str("3")]))
    ensures ArrayParse(Some(AsMapper(NaturalC)), Arr([Str("1"), Str("2"), Str("3")])) == VArr([VInt(1), VInt(2), VInt(3)])
  {
    var m := AsMapper(NaturalC);
    var v := Arr([Str("1"), Str("2"), Str("3")]);
    OneTwoThreeArray();
    OneTwoThreeNaturals();
    ArrayMapsEveryPiece(m, v);
    var r := ArrayParse(Some(m), v).items;
    assert r[0] == VInt(1) && r[1] == VInt(2) && r[2] == VInt(3);
  }

  /** `Parsers.enum`: a missing value stays missing; otherwise the result is
      the first candidate loosely equal to the trimmed text, in its own type,
      or `undefined` when no candidate is. */
  lemma EnumFirstMatch(cands: seq<Val>, eq: (Val, string) -> bool, s: string)
    ensures Apply(EnumC(cands, eq), Absent) == Ok(Undef)
    ensures Apply(EnumC(cands, eq), Str(s)).Ok?
    ensures var x := Apply(EnumC(cands, eq), Str(s)).value;
      || (x == Undef && forall j :: 0 <= j < |cands| ==> !eq(cands[j], Trim(s)))
      || (exists i :: 0 <= i < |cands| && x == cands[i] && eq(cands[i], Trim(s))
            && forall j :: 0 <= j < i ==> !eq(cands[j], Trim(s)))
  {
    match FirstMatch(cands, eq, Trim(s))
    case None =>
    case Some(i) =>
      assert Apply(EnumC(cands, eq), Str(s)).value == cands[i];
  }

  /** Example from the repository's tests: with numeric candidates
      `[10, 20, 30]`, the text "10" yields the number 10. The loose equality
      used here compares a number with the text of its decimal rendering and
      a string with the text itself; it agrees with `==` on the text "10". */
  lemma EnumNumberExample()
    ensures
      var eq := (c: Val, t: string) => (c.VInt? && t == IntToString(c.i)) || (c.VStr? && t == c.s);
      Apply(EnumC([VInt(10), VInt(20), VInt(30)], eq), Str("10")) == Ok(VInt(10))
  {
    var eq := (c: Val, t: string) => (c.VInt? && t == IntToString(c.i)) || (c.VStr? && t == c.s);
    TrimKeepsTrimmed("10");
    assert NatToString(10) == "10";
    assert FirstMatch([VInt(10), VInt(20), VInt(30)], eq, "10") == Some(0);
    ApplyCases(EnumC([VInt(10), VInt(20), VInt(30)], eq), Str("10"));
  }

  /** `Parsers.regExp`: a missing value stays missing; a text passes through
      unchanged exactly when the pattern accepts it. */
  lemma RegExpPassThrough(test: string -> bool, s: string)
    ensures Apply(RegExpC(test), Absent) == Ok(Undef)
    ensures Apply(RegExpC(test), Str(s)) == Ok(VStr(s)) <==> test(s)
    ensures Apply(RegExpC(test), Str(s)) == Ok(Undef) <==> !test(s)
  {
  }
}
