/**
 The template walker of src/core/index.ts: `parse` walks a decoded query in
 lockstep with a template, runs the parse function at every leaf, falls back
 to the default found at the same path when a parse function gives
 `undefined`, and throws when the query and the template disagree in shape.

 A template is an ordered sequence of key/node entries whose leaves are
 parse functions; an array of parse functions is the template whose keys are
 "0", "1", ... (`ArrayTemplate`).
 */
module Walker {
  import opened Values
  import opened Decimal

  /** A parse function: any function from what a query key holds to a value,
      which may throw. The walker only ever hands it a missing value, a text
      or a string array. */
  type Parser = Raw -> Result<Val>

  datatype Tmpl = Leaf(parse: Parser) | Branch(entries: seq<Entry>)
  datatype Entry = Entry(key: string, node: Tmpl)

  /** An array of parse functions used as a template. */
  function ArrayTemplate(ps: seq<Parser>): (t: Tmpl)
    ensures t.Branch? && |t.entries| == |ps|
    ensures forall i :: 0 <= i < |ps| ==> t.entries[i].key == NatToString(i) && t.entries[i].node == Leaf(ps[i])
  {
    Branch(seq(|ps|, i requires 0 <= i < |ps| => Entry(NatToString(i), Leaf(ps[i]))))
  }

  function Keys(es: seq<Entry>): set<string> {
    set i | 0 <= i < |es| :: es[i].key
  }

  /** No key appears twice at a level, as in a JavaScript object or array. */
  predicate KeysUnique(es: seq<Entry>) {
    forall i, j :: 0 <= i < j < |es| ==> es[i].key != es[j].key
  }

  /** `xs[key]` for the elements of an array: only a canonical index names one. */
  function ElementAt<T>(xs: seq<T>, key: string): Option<T> {
    if IsIndexKey(key) && DigitsValue(key) < |xs| then Some(xs[DigitsValue(key)]) else None
  }

  /** `query[key]` on an array or an object of the decoded query. */
  function Lookup(q: Raw, key: string): (r: Raw)
    requires q.Arr? || q.Obj?
    ensures q.Obj? && key in q.fields ==> r == q.fields[key]
    ensures q.Obj? && key !in q.fields ==> r == Absent
    ensures q.Arr? && IsIndexKey(key) && DigitsValue(key) < |q.items| ==> r == q.items[DigitsValue(key)]
    ensures q.Arr? && !(IsIndexKey(key) && DigitsValue(key) < |q.items|) ==> r == Absent
  {
    if q.Arr? then (match ElementAt(q.items, key) case Some(x) => x case None => Absent)
    else if key in q.fields then q.fields[key] else Absent
  }

  /** `defaults[key]` on a defined defaults value; a string yields its
      character at that index, a number or a boolean has no such property. */
  function Member(d: Val, key: string): (r: Val)
    ensures d.VObj? ==> r == (if key in d.fields then d.fields[key] else Undef)
    ensures d.Undef? || d.VInt? || d.VBool? ==> r == Undef
    ensures d.VArr? && r != Undef ==> IsIndexKey(key) && DigitsValue(key) < |d.items| && r == d.items[DigitsValue(key)]
    ensures d.VStr? && r != Undef ==> IsIndexKey(key) && DigitsValue(key) < |d.s| && r == VStr([d.s[DigitsValue(key)]])
  {
    match d
    case VObj(fields) => if key in fields then fields[key] else Undef
    case VArr(items) => (match ElementAt(items, key) case Some(x) => x case None => Undef)
    case VStr(s) => (match ElementAt(s, key) case Some(c) => VStr([c]) case None => Undef)
    case _ => Undef
  }

  /** `defaults !== undefined ? defaults[key] : defaults`. The guard only
      keeps JavaScript from throwing on `undefined[key]`: the result is the
      member lookup for every defaults value, and no defaults stay none. */
  function NextDefaults(d: Val, key: string): (r: Val)
    ensures r == Member(d, key)
    ensures d == Undef ==> r == Undef
  {
    if d != Undef then Member(d, key) else Undef
  }

  /** `parseString`: a leaf. The parse function runs on a missing value, a
      text or a string array (the empty array included), and its
      `undefined` is replaced by the default when there is one. Anything
      else is a template that does not fit the query. */
  function ParseString(v: Raw, p: Parser, d: Val): (r: Result<Val>)
    ensures !IsLeafInput(v) ==> r == Err(ParserGivenObject)
    ensures IsLeafInput(v) ==> (r.Err? <==> p(v).Err?)
    ensures IsLeafInput(v) && p(v).Err? ==> r.error == p(v).error
    ensures IsLeafInput(v) && p(v).Ok? ==>
      && (p(v).value != Undef ==> r.value == p(v).value)
      && (p(v).value == Undef ==> r.value == d)
      && (r.value == Undef <==> p(v).value == Undef && d == Undef)
  {
    if v.Absent? || v.Str? || IsStringArray(v) then
      match p(v)
      case Err(e) => Err(e)
      case Ok(x) => Ok(if x == Undef && d != Undef then d else x)
    else
      Err(ParserGivenObject)
  }

  /** `parseAny`: the node at `key`, with the query's value and the defaults'
      value at that key. */
  function ParseAny(q: Raw, key: string, node: Tmpl, d: Val): (r: Result<Val>)
    requires q.Arr? || q.Obj?
    ensures node.Leaf? && !IsLeafInput(Lookup(q, key)) ==> r == Err(ParserGivenObject)
    ensures node.Leaf? && r.Ok? && r.value == Undef ==> NextDefaults(d, key) == Undef
    ensures node.Branch? && (Lookup(q, key).Absent? || Lookup(q, key).Str?) ==> r == Err(TemplateGivenScalar)
    ensures node.Branch? && r.Ok? ==> (r.value.VArr? <==> Lookup(q, key).Arr?)
    decreases node, 4
  {
    var v := Lookup(q, key);
    var nd := NextDefaults(d, key);
    match node
    case Leaf(p) => ParseString(v, p, nd)
    case Branch(_) => ParseArrayOrObject(v, node, nd)
  }

  /** `parseArrayOrObject`: a nested template needs an array or an object;
      a string or a missing value throws, whatever the defaults say. */
  function ParseArrayOrObject(v: Raw, t: Tmpl, d: Val): (r: Result<Val>)
    requires t.Branch?
    ensures v.Absent? || v.Str? ==> r == Err(TemplateGivenScalar)
    ensures r.Ok? ==> (r.value.VArr? <==> v.Arr?)
    decreases t, 3
  {
    if v.Absent? || v.Str? then Err(TemplateGivenScalar) else ParseQuery(v, t, d)
  }

  /** `parseQuery`: an array query gives an array with one slot per template
      entry, in template order; any other query gives an object whose keys
      are exactly the template's. The input, not the template, decides which. */
  function ParseQuery(q: Raw, t: Tmpl, d: Val): (r: Result<Val>)
    requires q.Arr? || q.Obj?
    requires t.Branch?
    ensures r.Ok? ==> (r.value.VArr? <==> q.Arr?) && (r.value.VObj? <==> q.Obj?)
    ensures r.Ok? && q.Arr? ==> |r.value.items| == |t.entries|
    ensures r.Ok? && q.Obj? ==> forall j :: 0 <= j < |t.entries| ==> t.entries[j].key in r.value.fields
    decreases t, 2
  {
    if q.Arr? then
      match MapEntries(q, t, 0, d)
      case Err(e) => Err(e)
      case Ok(vs) => Ok(VArr(vs))
    else
      match ReduceEntries(q, t, 0, d, map[])
      case Err(e) => Err(e)
      case Ok(m) => Ok(VObj(m))
  }

  /** The result of template entry `i`: `parseAny(query, key, parser, defaults)`. */
  function EntryResult(q: Raw, t: Tmpl, i: nat, d: Val): Result<Val>
    requires q.Arr? || q.Obj?
    requires t.Branch? && i < |t.entries|
    decreases t, 0
  {
    assert t.entries[i] in t.entries;
    ParseAny(q, t.entries[i].key, t.entries[i].node, d)
  }

  /** The `array.map(...)` of `parseQuery`, from entry `i` on; the first
      entry that throws ends it. */
  function MapEntries(q: Raw, t: Tmpl, i: nat, d: Val): (r: Result<seq<Val>>)
    requires q.Arr? || q.Obj?
    requires t.Branch? && i <= |t.entries|
    ensures r.Ok? ==> |r.value| == |t.entries| - i
    decreases t, 1, |t.entries| - i
  {
    if i == |t.entries| then Ok([])
    else
      match EntryResult(q, t, i, d)
      case Err(err) => Err(err)
      case Ok(x) =>
        match MapEntries(q, t, i + 1, d)
        case Err(err) => Err(err)
        case Ok(xs) => Ok([x] + xs)
  }

  /** The `array.reduce(...)` of `parseQuery`, from entry `i` on, adding each
      entry's result to the object built so far. */
  function ReduceEntries(q: Raw, t: Tmpl, i: nat, d: Val, acc: map<string, Val>): (r: Result<map<string, Val>>)
    requires q.Arr? || q.Obj?
    requires t.Branch? && i <= |t.entries|
    ensures r.Ok? ==> acc.Keys <= r.value.Keys
    ensures r.Ok? ==> forall j :: i <= j < |t.entries| ==> t.entries[j].key in r.value
    decreases t, 1, |t.entries| - i
  {
    if i == |t.entries| then Ok(acc)
    else
      match EntryResult(q, t, i, d)
      case Err(err) => Err(err)
      case Ok(x) =>
        ReduceEntries(q, t, i + 1, d, acc[t.entries[i].key := x])
  }

  /** `parse`: the entry point. */
  function Parse(q: Raw, t: Tmpl, d: Val): (r: Result<Val>)
    requires q.Arr? || q.Obj?
    requires t.Branch?
    ensures r.Ok? ==> (r.value.VArr? <==> q.Arr?)
  {
    ParseQuery(q, t, d)
  }
}
