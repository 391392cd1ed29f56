# type-query-parser, modelled in Dafny

type-query-parser turns a decoded query string (an object whose values are
texts, string arrays, nested objects or arrays of objects) into typed values.
A *template* drives it: the template has the query's shape, and at each leaf
it holds a *parse function* made by one of the `Parsers` factories (`string`,
`number`, `boolean`, `array`, `integer`, `natural`, `enum`, `regExp`). An
optional *defaults* tree of the same shape supplies the value wherever a
parse function yields `undefined`.

This project models the template walker (`parse`, `parseQuery`, `parseAny`,
`parseString`, `parseArrayOrObject`, `isStringArray`), the parse-function
factories and the leaf parsers of `src/libs/parser.ts`, and proves what they
promise.

Modules, one per part of the program:

- `Values` (values.dfy): a decoded query value `Raw` (`Absent`, `Str`, `Arr`,
  `Obj`); an output or defaults value `Val`; and the three ways a parse
  throws, as `Result` errors. Two errors are thrown by the walker. The third
  is the `TypeError` of calling `.trim()` on an array.
- `Text` (text.dfy): JavaScript `trim` (its white-space set), `split` on one
  character and `join`.
- `Decimal` (decimal.dfy): the digit patterns, the value of a digit text and
  the decimal rendering of an integer. A rendering is also the property name
  of an array element.
- `ScalarParsers` (scalar_parsers.dfy): `isSafeInteger`, `matchInteger`,
  `matchNatural`, `integerParser`, `naturalParser`, `numberParser` and
  `booleanParser`.
- `Parsers` (parsers.dfy): the factories. A factory's closure is a `Coercer`
  value, `Apply` runs it, and `ParserOf` turns it into the parse function a
  template holds.
- `Walker` (walker.dfy): the template walker, as mutually recursive functions.
  A template is an ordered sequence of key/node entries. Its leaves hold any
  parse function (`Raw -> Result<Val>`), as in the program, where a template
  leaf may be any function. A parser array is the template whose keys are
  "0", "1", ….
- `WalkerLaws` (walker_laws.dfy): slot-by-slot laws of `parseQuery` covering
  output shape, defaults and errors.
- `WalkerShape` (walker_shape.dfy): the output mirrors the template at every
  depth, and a parser array reads query and defaults by position.
- `WalkerExamples` (walker_examples.dfy): the "with defaults" test of the
  repository, as a proved parse.

Where the code and a reading of its documentation differ, the model follows
the code:

- `Parsers.string()` on a missing value gives `''`, not `undefined`, so
  defaults never apply to a string leaf.
- `Parsers.boolean()`, `Parsers.enum(...)` and `Parsers.string(true)` throw
  when the query holds a string array, because they call `.trim()` on it.
  `Parsers.boolean()` on a missing value does not throw.
- A nested template that meets a missing key throws even when defaults exist
  for it.
- The output is an array exactly when the query is an array, whatever the
  template's kind.
- `integer` and `natural` on a one-element string array read that element.
  This is because the regular expression and `Number` see the array's text.

## Model

| member | source | states |
|---|---|---|
| Values.IsStringArray | src/core/index.ts:89-94 | `isStringArray`: an array all of whose elements are texts; `every` holds on the empty array, so `[]` is one |
| Text.TrimStartSpec | src/core/index.ts:13 | cutting leading white space leaves a suffix of the text that does not start with white space, and everything cut off is white space |
| Text.TrimEndSpec | src/core/index.ts:13 | cutting trailing white space leaves a prefix of the text that does not end with white space, and everything cut off is white space |
| Text.Trim | src/core/index.ts:13 | the result has no white space at either end and is no longer than the input |
| Text.TrimSpec | src/core/index.ts:13 | the result of `trim` is an infix of the input, and everything cut off on either side is white space |
| Text.TrimExample | src/core/index.ts:13 | `trim` strips a leading blank and a trailing line feed |
| Text.TrimIdempotent | src/core/index.ts:13 | trimming twice is trimming once |
| Text.TrimKeepsTrimmed | src/libs/parser.ts:28-31 | a text with no white space at either end is left unchanged by `trim` |
| Text.Split | src/core/index.ts:30 | `split(',')` gives one more piece than there are commas, and no piece contains a comma |
| Text.JoinSplit | src/core/index.ts:30 | joining the pieces of a split with the separator gives back the text |
| Text.SplitJoin | src/core/index.ts:30 | splitting the join of comma-free pieces gives back the pieces |
| Decimal.NatToString | src/core/index.ts:122 | the rendering of a natural, which is also the key `Object.entries` gives position n of a parser array, is a non-empty digit text, so the natural pattern (src/libs/parser.ts:9) accepts it |
| Decimal.IntToString | test/index.test.ts:20-37 | the rendering of an integer, as the test's stringified query holds its numbers, matches the integer pattern (src/libs/parser.ts:7), which the round-trip lemmas below complete |
| Decimal.NatRoundTrip | src/libs/parser.ts:15-17 | the value of a natural's rendering is that natural |
| Decimal.IntRoundTrip | src/libs/parser.ts:11-13 | the value of an integer's rendering is that integer |
| Decimal.NatToStringIsIndexKey | src/core/index.ts:116 | a rendered natural is a canonical array index, with no leading zero |
| Decimal.NatToStringInjective | src/core/index.ts:116 | distinct positions have distinct keys |
| Decimal.IndexKeyRoundTrip | src/core/index.ts:116 | a canonical index key is the rendering of its own value |
| ScalarParsers.LeafText | src/libs/parser.ts:7-16 | the text the patterns test: "" for a missing value, a text itself, and an array's elements joined by commas, so "" for `[]` and the element itself for a one-element array |
| ScalarParsers.LeafTextPieces | src/libs/parser.ts:7-16 | splitting the text of a non-empty array of comma-free texts at its commas gives the elements back: the joined text loses nothing |
| ScalarParsers.IsSafeInteger | src/libs/parser.ts:3-5 | a safe integer has magnitude below 2^53, and its negation is safe too. For the value of an integer text, `isSafeInteger(Number(s))` holds exactly when that value is within ±(2^53−1): the value rounds to a double of magnitude at least 2^53 exactly when it exceeds 2^53−1, so the test is a bound on the decimal value |
| ScalarParsers.MatchNatural | src/libs/parser.ts:9 | a match is a non-empty text that does not start with a minus sign; a missing value never matches |
| ScalarParsers.MatchInteger | src/libs/parser.ts:7 | the integer pattern accepts exactly what the natural pattern accepts, and such a text behind one minus sign |
| ScalarParsers.IntegerParser | src/libs/parser.ts:3-13 | a number exactly when the text is an optional minus followed by digits and its value is within ±(2^53−1); the number is that value |
| ScalarParsers.NaturalParser | src/libs/parser.ts:3-17 | a number exactly when the text is all digits with value at most 2^53−1; the number is that value, so never negative |
| ScalarParsers.NumberParser | src/libs/parser.ts:19-22 | a missing or empty value gives `undefined` |
| ScalarParsers.BooleanParser | src/libs/parser.ts:24-34 | throws exactly on an array (`trim` of an array); otherwise `undefined` or a boolean |
| ScalarParsers.EmptyIsUndefined | src/libs/parser.ts:7-22 | missing and empty input give `undefined` for the integer, natural and number parsers |
| ScalarParsers.NaturalIsInteger | src/libs/parser.ts:7-17 | whenever the natural parser gives a value, the integer parser gives the same value |
| ScalarParsers.IntegerRoundTrip | src/libs/parser.ts:11-13 | parsing the rendering of a safe integer gives the integer back |
| ScalarParsers.NaturalRoundTrip | src/libs/parser.ts:15-17 | parsing the rendering of a safe natural gives it back, with both the natural and the integer parser |
| ScalarParsers.NaturalRejectsSign | src/libs/parser.ts:9 | a text starting with a minus sign is never a natural |
| ScalarParsers.ArrayOfOneText | src/libs/parser.ts:7-17 | a one-element array parses like its element; an array of two or more texts is never an integer |
| ScalarParsers.SignAndFractionExamples | test/index.test.ts:97-129 | "-2" is the integer −2 and not a natural; "12.34" is neither; "123456" is the natural 123456 |
| ScalarParsers.BooleanLiterals | src/libs/parser.ts:24-34 | `true` or `false` exactly for the trimmed literals; `undefined` for every other text |
| ScalarParsers.BooleanExamples | test/index.test.ts:131-142 | "false" gives false, " true\n" gives true, "1" and a missing value give `undefined` |
| Parsers.DropUndef | src/core/index.ts:32-34 | the result holds exactly the defined values of the input, is no longer, and equals it when nothing is `undefined` |
| Parsers.DropUndefAppend | src/core/index.ts:32-34 | dropping `undefined` preserves order: it distributes over concatenation |
| Parsers.FirstMatch | src/core/index.ts:74 | `find`: the index of a loosely equal candidate with no equal candidate before it, or none exactly when no candidate is equal |
| Parsers.Apply | src/core/index.ts:8-85 | a parse function never throws on a missing value or a text; when it throws, the value was an array and the cause is `trim` |
| Parsers.ParserOf | src/core/index.ts:8-85 | the function a factory call returns behaves as the factory's closure on every value the walker hands to a parse function |
| Parsers.StringParse | src/core/index.ts:10-15 | `string(trim)` throws exactly when asked to trim a string array, and never gives `undefined` |
| Parsers.ArrayParse | src/core/index.ts:25-36 | `array` gives `undefined` exactly for a missing value; otherwise an array with no more elements than there are pieces and no `undefined` among them |
| Parsers.NaturalMapper | src/core/index.ts:62-66 | `natural()` used as a mapper turns the rendering of a safe natural back into that number |
| Parsers.ArrayMapsEveryPiece | src/core/index.ts:25-36 | when the mapper gives a defined value for every piece, `array` gives one element per piece, in order, each the mapper's value for that piece |
| Parsers.EnumParse | src/core/index.ts:68-76 | `enum` throws exactly on a string array (it trims it); otherwise it gives `undefined` or one of the candidates |
| Parsers.RegExpParse | src/core/index.ts:78-85 | `regExp` gives `undefined` for a missing value, and otherwise either `undefined` or the value itself |
| Parsers.AbsentGivesUndefined | src/core/index.ts:10-85 | on a missing value every parse function except `string` gives `undefined`, and `string` gives "" |
| Parsers.StringNeverUndefined | src/core/index.ts:10-15 | `string(trim)` never gives `undefined`; missing or empty input gives ""; a text gives itself, trimmed when `trim` is set |
| Parsers.ArrayOfText | src/core/index.ts:25-36 | `array` on a text gives an array of the comma-separated pieces (k commas, k+1 pieces), or of the defined mapped pieces and never more, with no `undefined` in it |
| Parsers.ArrayTextEqualsArray | src/core/index.ts:25-36 | a comma-joined text and the string array of its pieces give the same result |
| Parsers.ArrayOfNaturalsText | test/index.test.ts:169-180 | `array(natural())` turns '1,2,3' into [1, 2, 3] |
| Parsers.ArrayOfNaturalsArray | test/index.test.ts:169-180 | `array(natural())` turns ['1','2','3'] into [1, 2, 3] |
| Parsers.EnumFirstMatch | src/core/index.ts:68-76 | `enum`: a missing value stays `undefined`; otherwise the result is the first candidate loosely equal to the trimmed text, in its own type, or `undefined` when there is none |
| Parsers.EnumNumberExample | test/index.test.ts:156-166 | with candidates [10, 20, 30], the text "10" gives the number 10 |
| Parsers.RegExpPassThrough | src/core/index.ts:78-85 | `regExp`: a missing value stays `undefined`; a text comes out unchanged exactly when the pattern accepts it, and `undefined` otherwise |
| Walker.ArrayTemplate | src/core/index.type.ts:5-7 | a parser array is the template with one leaf per parser, keyed by the rendering of its position |
| Walker.Lookup | src/core/index.ts:116 | `query[key]`: an object's field, or missing; an array's element at a canonical index within bounds, and missing for every other key |
| Walker.Member | src/core/index.ts:117 | `defaults[key]`: an object's field or `undefined`; an array's element, or a string's one-character string, only at a canonical index within bounds; `undefined` on a number or a boolean |
| Walker.NextDefaults | src/core/index.ts:117 | the guard on `undefined` defaults only avoids a crash: the result is the member lookup for every defaults value, and no defaults stay `undefined` |
| Walker.ParseAny | src/core/index.ts:115-119 | a leaf given a nested object or a non-string array throws; a nested template given a text or a missing value throws; a leaf's result is `undefined` only when there is no default at the key; a nested template's output is an array exactly when the query's value is one |
| Walker.ParseString | src/core/index.ts:96-106 | a non-leaf value throws; otherwise the parse function's error is passed on, a defined result is kept, an `undefined` result becomes the default, and the output is `undefined` only when both are |
| Walker.ParseArrayOrObject | src/core/index.ts:108-113 | a nested template given a text or a missing value throws; otherwise the output is an array exactly when the value is one |
| Walker.ParseQuery | src/core/index.ts:121-133 | the output is an array exactly when the query is one, with one slot per template entry, and otherwise an object holding every template key |
| Walker.MapEntries | src/core/index.ts:125-127 | `map` over the entries gives one value per remaining entry |
| Walker.ReduceEntries | src/core/index.ts:129-132 | the `reduce` keeps the accumulated keys and adds every remaining entry's key |
| Walker.Parse | src/core/index.ts:135-137 | the output is an array exactly when the query is one |
| WalkerLaws.EntryUnfolds | src/core/index.ts:115-119 | entry j runs `parseString` or `parseArrayOrObject` on the query's value at its key, with `defaults[key]` when defaults are defined and `undefined` otherwise |
| WalkerLaws.EntryIsLocal | src/core/index.ts:115-119 | an entry's result depends only on the query and the defaults at its own key |
| WalkerLaws.MapStep | src/core/index.ts:125-127 | one step of the `map`: entry i's error, a later entry's error, or entry i's value in front of the rest |
| WalkerLaws.ReduceStep | src/core/index.ts:129-132 | one step of the `reduce`: entry i's error, or the rest built on the object extended with entry i's value at its key |
| WalkerLaws.MapEntriesValues | src/core/index.ts:125-127 | when the `map` succeeds, every entry succeeded and value i is entry i's result |
| WalkerLaws.MapEntriesFirstError | src/core/index.ts:125-127 | when the `map` throws, the error is that of an entry all of whose predecessors succeeded |
| WalkerLaws.ReduceEntriesValues | src/core/index.ts:129-132 | when the `reduce` succeeds, every entry succeeded and the output holds each entry's result at its key |
| WalkerLaws.ReduceEntriesFirstError | src/core/index.ts:129-132 | when the `reduce` throws, the error is that of an entry all of whose predecessors succeeded |
| WalkerLaws.ReduceKeys | src/core/index.ts:129-132 | the object the `reduce` builds has exactly the accumulated keys and the remaining entries' keys |
| WalkerLaws.MapEntriesSlots | src/core/index.ts:125-127 | the `map` succeeds exactly when every entry does; value i is entry i's result; otherwise the error is that of the first failing entry |
| WalkerLaws.ReduceEntriesSlots | src/core/index.ts:129-132 | the `reduce` succeeds exactly when every entry does, and each key holds its entry's result; otherwise the error is that of the first failing entry |
| WalkerLaws.ReduceKeepsAcc | src/core/index.ts:129-132 | a key not among the remaining entries keeps its accumulated value through the spread |
| WalkerLaws.ArraySlots | src/core/index.ts:124-128 | for an array query, slot j of the output is entry j's result, in template order |
| WalkerLaws.ObjectSlots | src/core/index.ts:129-132 | for an object query, the output's keys are exactly the template's, and at each of them is that entry's result |
| WalkerLaws.QueryErrors | src/core/index.ts:121-133 | a parse throws exactly when some entry throws, with the first failing entry's error; there is no partial result |
| WalkerLaws.ObjectResult | src/core/index.ts:129-132 | when every entry of an object query succeeds, the output is exactly the object mapping each key to its entry's result |
| WalkerLaws.SameSlotsSameOutput | src/core/index.ts:121-133 | two parses whose entries give the same results give the same output |
| WalkerLaws.MapAgree | src/core/index.ts:125-127 | the `map` depends only on the entries' results |
| WalkerLaws.ReduceAgree | src/core/index.ts:129-132 | the `reduce` depends only on the entries' results |
| WalkerLaws.DefaultsOnlyByKey | src/core/index.ts:115-119 | defaults are read only at the template's keys; no defaults and an empty defaults object give the same output |
| WalkerLaws.MapSameErrors | src/core/index.ts:125-127 | when every entry throws alike, with the same error, under two defaults values, so does the `map` |
| WalkerLaws.ReduceSameErrorsStep | src/core/index.ts:129-132 | one step of the `reduce` under two defaults values whose entry i throws alike: both throw alike, or both go on to the next entry |
| WalkerLaws.ReduceSameErrors | src/core/index.ts:129-132 | when every entry throws alike under two defaults values, so does the `reduce`, whatever the objects built so far |
| WalkerLaws.ErrorsIgnoreDefaults | src/core/index.ts:96-133 | defaults never decide whether a parse throws, nor with which error, at any depth of the template |
| WalkerLaws.ExtraInputKeysIgnored | src/core/index.ts:121-133 | a query key that is not in the template does not change the output |
| WalkerLaws.SiblingDefaultsIndependent | src/core/index.ts:115-119 | changing the default of one key leaves every other key's output unchanged |
| WalkerLaws.LeafDefaultLaw | src/core/index.ts:96-104 | at a leaf key of an object query, a defined parse result is kept, and an `undefined` one is replaced by the default at that key |
| WalkerLaws.MissingKeyTakesDefault | src/core/index.ts:97-99 | a template key missing from the query, at a leaf made by a factory, gets the default at that key, or `undefined`, except for a `string` leaf, which gives "" |
| WalkerLaws.StringLeafIgnoresDefaults | src/core/index.ts:96-104 | defaults never change a `string` leaf |
| WalkerLaws.StructuralErrors | src/core/index.ts:89-113 | a leaf given a nested object or a non-string array throws; a nested template given a text or a missing value throws; the empty array reaches the parse function, which alone decides whether it throws |
| WalkerShape.ShapeMirrorsTemplate | src/core/index.ts:108-133 | a successful parse has the template's shape at every depth: each nested template is answered by an array with one slot per entry or by an object with exactly the entry keys |
| WalkerShape.IndexDefaults | src/core/index.ts:117 | in an array of defaults, the default for position i is element i, or `undefined` past the end |
| WalkerShape.IndexLookup | src/core/index.ts:116 | in an array query, the value for position i is element i, or missing past the end |
| WalkerShape.ArrayTemplateWellKeyed | src/core/index.type.ts:5-7 | the keys of a parser array are distinct at its level |
| WalkerShape.PositionalTemplate | src/core/index.ts:115-128 | a parser array applied to an array query: slot i is parser i on element i, falling back to element i of the defaults array; extra query elements are dropped |
| WalkerExamples.WithDefaultsExample | test/index.test.ts:51-67 | with defaults `{role: 'GUEST'}`, a role that is not a candidate comes out as "GUEST", next to the parsed id, trimmed name and boolean |
| WalkerExamples.MasterFallsBackToGuest | test/index.test.ts:51-67 | the test's own query, whose role is "MASTER", gives `{id: 123456, name: 'jimmy', active: true, role: 'GUEST'}` |

## Left out

- `Parsers.date`, `Parsers.datePattern` and `Parsers.datetimePattern` (src/core/index.ts:42-60) are not modelled. They rely on `couldBeDate`, `toDate` and `compose` from src/libs/dates and on the JavaScript `Date` and time-zone rules. src/libs/dates is not part of this model.
- `Parsers.number` and `numberParser`: JavaScript `Number` on a text is a parameter of the model (`toNumber`, where `None` stands for NaN). Only the missing and empty cases are fixed. Floating-point parsing is not modelled.
- `Parsers.enum`: JavaScript loose equality `==` between a candidate and a text is a parameter of the model.
- `Parsers.regExp`: the regular expression's `test` is a parameter of the model. The `lastIndex` state of a global pattern is not modelled.
- `Parsers.array(mapper)`: the mapper is any function from a text to a value, and it does not throw. The index and array arguments that `map` also passes to it are not modelled.
- Template keys are an ordered sequence of entries. The order in which `Object.entries` lists integer-like keys first is not modelled.
- Property lookups on arrays and strings use only canonical index keys. Inherited properties such as `length` or `toString`, and `null` defaults (where `defaults[key]` crashes), are not modelled.
- Strings are sequences of code points, not of UTF-16 code units. So `Walker.Member` on a string default (a string given as the defaults of a nested template) indexes by code point, which differs from JavaScript for characters outside the Basic Multilingual Plane.
- ScalarParsers.IntegerParser: the text "-0" gives the number 0. JavaScript gives negative zero, which differs from 0 only under `Object.is`.
- `parse<T>` and the other TypeScript casts and generic types have no runtime effect and are not modelled.
