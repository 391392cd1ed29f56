/**
 What `parse` promises about the shape of its output, about defaults and
 about the errors it throws.
 */
module WalkerLaws {
  import opened Values
  import opened Decimal
  import opened Parsers
  import opened Walker

  /** Entries `lo` to `hi` (excluded) all give a result. */
  predicate EntriesOk(q: Raw, t: Tmpl, lo: nat, hi: nat, d: Val)
    requires q.Arr? || q.Obj?
    requires t.Branch? && hi <= |t.entries|
  {
    forall k :: lo <= k < hi ==> EntryResult(q, t, k, d).Ok?
  }

  /** The keys of the entries from `i` on, by index. */
  lemma KeysSuffix(es: seq<Entry>, i: nat)
    requires i <= |es|
    ensures Keys(es[i..]) == set j | i <= j < |es| :: es[j].key
  {
    forall k | k in Keys(es[i..]) ensures exists j :: i <= j < |es| && es[j].key == k {
      var n :| 0 <= n < |es| - i && es[i..][n].key == k;
      assert es[i + n].key == k;
    }
    forall j | i <= j < |es| ensures es[j].key in Keys(es[i..]) {
      assert es[i..][j - i] == es[j];
    }
  }

  /** Entry `j` parses what the query holds at its key with the defaults
      found at that key: a leaf runs `parseString`, a nested template
      `parseArrayOrObject`. */
  lemma EntryUnfolds(q: Raw, t: Tmpl, j: nat, d: Val)
    requires q.Arr? || q.Obj?
    requires t.Branch? && j < |t.entries|
    ensures var e := t.entries[j];
      && (e.node.Leaf? ==> EntryResult(q, t, j, d) == ParseString(Lookup(q, e.key), e.node.parse, NextDefaults(d, e.key)))
      && (e.node.Branch? ==> EntryResult(q, t, j, d) == ParseArrayOrObject(Lookup(q, e.key), e.node, NextDefaults(d, e.key)))
  {
  }

  /** An entry sees the query and the defaults only at its own key. */
  lemma EntryIsLocal(q1: Raw, q2: Raw, t: Tmpl, j: nat, d1: Val, d2: Val)
    requires (q1.Arr? || q1.Obj?) && (q2.Arr? || q2.Obj?)
    requires t.Branch? && j < |t.entries|
    requires Lookup(q1, t.entries[j].key) == Lookup(q2, t.entries[j].key)
    requires NextDefaults(d1, t.entries[j].key) == NextDefaults(d2, t.entries[j].key)
    ensures EntryResult(q1, t, j, d1) == EntryResult(q2, t, j, d2)
  {
    EntryUnfolds(q1, t, j, d1);
    EntryUnfolds(q2, t, j, d2);
  }

  /** One step of `MapEntries`: entry `i`'s error, the error of a later
      entry, or entry `i`'s value in front of the rest. */
  lemma MapStep(q: Raw, t: Tmpl, i: nat, d: Val)
    requires q.Arr? || q.Obj?
    requires t.Branch? && i < |t.entries|
    ensures var x, rest := EntryResult(q, t, i, d), MapEntries(q, t, i + 1, d);
      MapEntries(q, t, i, d) == if x.Err? then Err(x.error) else if rest.Err? then Err(rest.error) else Ok([x.value] + rest.value)
  {
  }

  /** One step of `ReduceEntries`: entry `i`'s error, or the rest built on
      the object extended with entry `i`'s value at its key. */
  lemma ReduceStep(q: Raw, t: Tmpl, i: nat, d: Val, acc: map<string, Val>)
    requires q.Arr? || q.Obj?
    requires t.Branch? && i < |t.entries|
    ensures var x := EntryResult(q, t, i, d);
      ReduceEntries(q, t, i, d, acc) == if x.Err? then Err(x.error) else ReduceEntries(q, t, i + 1, d, acc[t.entries[i].key := x.value])
  {
  }

  /** `MapEntries` from `i` on, when it gives a result: every entry gave a
      result, and the values are those results in order. */
  lemma {:induction false} MapEntriesValues(q: Raw, t: Tmpl, i: nat, d: Val)
    requires q.Arr? || q.Obj?
    requires t.Branch? && i <= |t.entries|
    requires MapEntries(q, t, i, d).Ok?
    ensures forall j :: i <= j < |t.entries| ==>
      EntryResult(q, t, j, d).Ok? && MapEntries(q, t, i, d).value[j - i] == EntryResult(q, t, j, d).value
    decreases |t.entries| - i
  {
    if i < |t.entries| {
      MapStep(q, t, i, d);
      var r := MapEntries(q, t, i, d);
      var rest := MapEntries(q, t, i + 1, d);
      MapEntriesValues(q, t, i + 1, d);
      forall j | i < j < |t.entries| ensures r.value[j - i] == EntryResult(q, t, j, d).value {
        assert r.value[j - i] == rest.value[j - (i + 1)];
      }
    }
  }

  /** `MapEntries` from `i` on, when it throws: the error is that of an entry
      all of whose predecessors gave a result. */
  lemma {:induction false} MapEntriesFirstError(q: Raw, t: Tmpl, i: nat, d: Val)
    requires q.Arr? || q.Obj?
    requires t.Branch? && i <= |t.entries|
    requires MapEntries(q, t, i, d).Err?
    ensures
      exists j :: i <= j < |t.entries| && EntryResult(q, t, j, d) == Err(MapEntries(q, t, i, d).error)
        && EntriesOk(q, t, i, j, d)
    decreases |t.entries| - i
  {
    MapStep(q, t, i, d);
    var x := EntryResult(q, t, i, d);
    if x.Err? {
      assert EntriesOk(q, t, i, i, d);
    } else {
      MapEntriesFirstError(q, t, i + 1, d);
      var j :| i + 1 <= j < |t.entries| && EntryResult(q, t, j, d) == Err(MapEntries(q, t, i + 1, d).error)
        && EntriesOk(q, t, i + 1, j, d);
      assert EntriesOk(q, t, i, j, d);
    }
  }

  /** `MapEntries` from `i` on: the values are the entries' results in order,
      and it throws exactly when an entry does, with the first such error. */
  lemma MapEntriesSlots(q: Raw, t: Tmpl, i: nat, d: Val)
    requires q.Arr? || q.Obj?
    requires t.Branch? && i <= |t.entries|
    ensures MapEntries(q, t, i, d).Ok? <==> EntriesOk(q, t, i, |t.entries|, d)
    ensures MapEntries(q, t, i, d).Ok? ==>
      forall j :: i <= j < |t.entries| ==> MapEntries(q, t, i, d).value[j - i] == EntryResult(q, t, j, d).value
    ensures MapEntries(q, t, i, d).Err? ==>
      exists j :: i <= j < |t.entries| && EntryResult(q, t, j, d) == Err(MapEntries(q, t, i, d).error)
        && EntriesOk(q, t, i, j, d)
  {
    if MapEntries(q, t, i, d).Ok? {
      MapEntriesValues(q, t, i, d);
    } else {
      MapEntriesFirstError(q, t, i, d);
      var j :| i <= j < |t.entries| && EntryResult(q, t, j, d) == Err(MapEntries(q, t, i, d).error);
      assert !EntryResult(q, t, j, d).Ok?;
    }
  }

  /** `ReduceEntries` from `i` on, when it gives a result: every entry gave
      a result, which the output holds at the entry's key. */
  lemma {:induction false} ReduceEntriesValues(q: Raw, t: Tmpl, i: nat, d: Val, acc: map<string, Val>)
    requires q.Arr? || q.Obj?
    requires t.Branch? && i <= |t.entries| && KeysUnique(t.entries)
    requires ReduceEntries(q, t, i, d, acc).Ok?
    ensures forall j :: i <= j < |t.entries| ==>
      EntryResult(q, t, j, d).Ok? && ReduceEntries(q, t, i, d, acc).value[t.entries[j].key] == EntryResult(q, t, j, d).value
    decreases |t.entries| - i
  {
    if i < |t.entries| {
      var e := t.entries[i];
      ReduceStep(q, t, i, d, acc);
      var acc' := acc[e.key := EntryResult(q, t, i, d).value];
      ReduceEntriesValues(q, t, i + 1, d, acc');
      KeysSuffix(t.entries, i + 1);
      ReduceKeepsAcc(q, t, i + 1, d, acc', e.key);
    }
  }

  /** `ReduceEntries` from `i` on, when it throws: the error is that of an
      entry all of whose predecessors gave a result. */
  lemma {:induction false} ReduceEntriesFirstError(q: Raw, t: Tmpl, i: nat, d: Val, acc: map<string, Val>)
    requires q.Arr? || q.Obj?
    requires t.Branch? && i <= |t.entries|
    requires ReduceEntries(q, t, i, d, acc).Err?
    ensures
      exists j :: i <= j < |t.entries| && EntryResult(q, t, j, d) == Err(ReduceEntries(q, t, i, d, acc).error)
        && EntriesOk(q, t, i, j, d)
    decreases |t.entries| - i
  {
    ReduceStep(q, t, i, d, acc);
    var x := EntryResult(q, t, i, d);
    if x.Err? {
      assert EntriesOk(q, t, i, i, d);
    } else {
      var acc' := acc[t.entries[i].key := x.value];
      ReduceEntriesFirstError(q, t, i + 1, d, acc');
      var j :| i + 1 <= j < |t.entries| && EntryResult(q, t, j, d) == Err(ReduceEntries(q, t, i + 1, d, acc').error)
        && EntriesOk(q, t, i + 1, j, d);
      assert EntriesOk(q, t, i, j, d);
    }
  }

  /** `ReduceEntries` from `i` on: every key of the remaining entries holds
      its entry's result, and it throws exactly when an entry does, with the
      first such error. */
  lemma ReduceEntriesSlots(q: Raw, t: Tmpl, i: nat, d: Val, acc: map<string, Val>)
    requires q.Arr? || q.Obj?
    requires t.Branch? && i <= |t.entries| && KeysUnique(t.entries)
    ensures ReduceEntries(q, t, i, d, acc).Ok? <==> EntriesOk(q, t, i, |t.entries|, d)
    ensures ReduceEntries(q, t, i, d, acc).Ok? ==>
      forall j :: i <= j < |t.entries| ==> ReduceEntries(q, t, i, d, acc).value[t.entries[j].key] == EntryResult(q, t, j, d).value
    ensures ReduceEntries(q, t, i, d, acc).Err? ==>
      exists j :: i <= j < |t.entries| && EntryResult(q, t, j, d) == Err(ReduceEntries(q, t, i, d, acc).error)
        && EntriesOk(q, t, i, j, d)
  {
    if ReduceEntries(q, t, i, d, acc).Ok? {
      ReduceEntriesValues(q, t, i, d, acc);
    } else {
      ReduceEntriesFirstError(q, t, i, d, acc);
      var j :| i <= j < |t.entries| && EntryResult(q, t, j, d) == Err(ReduceEntries(q, t, i, d, acc).error);
      assert !EntryResult(q, t, j, d).Ok?;
    }
  }

  /** A key the remaining entries do not mention keeps its accumulated value. */
  lemma {:induction false} ReduceKeepsAcc(q: Raw, t: Tmpl, i: nat, d: Val, acc: map<string, Val>, k: string)
    requires q.Arr? || q.Obj?
    requires t.Branch? && i <= |t.entries|
    requires k in acc && k !in Keys(t.entries[i..])
    requires ReduceEntries(q, t, i, d, acc).Ok?
    ensures ReduceEntries(q, t, i, d, acc).value[k] == acc[k]
    decreases |t.entries| - i
  {
    if i < |t.entries| {
      var e := t.entries[i];
      assert t.entries[i..][0] == e;
      var x := EntryResult(q, t, i, d).value;
      assert k != e.key;
      KeysSuffix(t.entries, i);
      KeysSuffix(t.entries, i + 1);
      ReduceStep(q, t, i, d, acc);
      ReduceKeepsAcc(q, t, i + 1, d, acc[e.key := x], k);
    }
  }

  /** The object built from entry `i` on holds the keys built so far and
      the keys of the remaining entries, and no others. */
  lemma {:induction false} ReduceKeys(q: Raw, t: Tmpl, i: nat, d: Val, acc: map<string, Val>)
    requires q.Arr? || q.Obj?
    requires t.Branch? && i <= |t.entries|
    requires ReduceEntries(q, t, i, d, acc).Ok?
    ensures ReduceEntries(q, t, i, d, acc).value.Keys == acc.Keys + Keys(t.entries[i..])
    decreases |t.entries| - i
  {
    if i < |t.entries| {
      var key := t.entries[i].key;
      var x := EntryResult(q, t, i, d).value;
      ReduceStep(q, t, i, d, acc);
      ReduceKeys(q, t, i + 1, d, acc[key := x]);
      KeysSuffix(t.entries, i);
      KeysSuffix(t.entries, i + 1);
    } else {
      assert Keys(t.entries[i..]) == {};
    }
  }

  /** An array query: slot `j` of the output is entry `j`'s result. */
  lemma ArraySlots(q: Raw, t: Tmpl, d: Val)
    requires q.Arr? && t.Branch?
    requires ParseQuery(q, t, d).Ok?
    ensures forall j :: 0 <= j < |t.entries| ==> EntryResult(q, t, j, d) == Ok(ParseQuery(q, t, d).value.items[j])
  {
    MapEntriesSlots(q, t, 0, d);
  }

  /** An object query: the output has exactly the template's keys, and at
      each of them that entry's result. */
  lemma ObjectSlots(q: Raw, t: Tmpl, d: Val)
    requires q.Obj? && t.Branch? && KeysUnique(t.entries)
    requires ParseQuery(q, t, d).Ok?
    ensures ParseQuery(q, t, d).value.fields.Keys == Keys(t.entries)
    ensures forall j :: 0 <= j < |t.entries| ==>
      EntryResult(q, t, j, d) == Ok(ParseQuery(q, t, d).value.fields[t.entries[j].key])
  {
    ReduceEntriesSlots(q, t, 0, d, map[]);
    ReduceKeys(q, t, 0, d, map[]);
    assert t.entries[0..] == t.entries;
  }

  /** A parse throws exactly when one of its entries throws, and then with
      the error of the first entry that does: no partial result. */
  lemma QueryErrors(q: Raw, t: Tmpl, d: Val)
    requires (q.Arr? || q.Obj?) && t.Branch? && KeysUnique(t.entries)
    ensures ParseQuery(q, t, d).Ok? <==> EntriesOk(q, t, 0, |t.entries|, d)
    ensures ParseQuery(q, t, d).Err? ==>
      exists j :: 0 <= j < |t.entries| && EntryResult(q, t, j, d) == Err(ParseQuery(q, t, d).error)
        && EntriesOk(q, t, 0, j, d)
  {
    if q.Arr? {
      MapEntriesSlots(q, t, 0, d);
    } else {
      ReduceEntriesSlots(q, t, 0, d, map[]);
    }
  }

  /** An object query whose entries all give results parses to the object
      that holds each entry's result at the entry's key, and nothing else. */
  lemma ObjectResult(q: Raw, t: Tmpl, d: Val, m: map<string, Val>)
    requires q.Obj? && t.Branch? && KeysUnique(t.entries)
    requires m.Keys == Keys(t.entries)
    requires forall j :: 0 <= j < |t.entries| ==> EntryResult(q, t, j, d) == Ok(m[t.entries[j].key])
    ensures ParseQuery(q, t, d) == Ok(VObj(m))
  {
    assert EntriesOk(q, t, 0, |t.entries|, d);
    QueryErrors(q, t, d);
    ObjectSlots(q, t, d);
    var out := ParseQuery(q, t, d).value.fields;
    forall k | k in m ensures out[k] == m[k] {
      var j :| 0 <= j < |t.entries| && t.entries[j].key == k;
    }
    assert out.Keys == m.Keys;
    assert out == m;
  }

  /** Two parses whose entries give the same results give the same output. */
  lemma {:induction false} SameSlotsSameOutput(q1: Raw, q2: Raw, t: Tmpl, d1: Val, d2: Val)
    requires (q1.Arr? || q1.Obj?) && q1.Arr? == q2.Arr? && q1.Obj? == q2.Obj?
    requires t.Branch?
    requires forall j :: 0 <= j < |t.entries| ==> EntryResult(q1, t, j, d1) == EntryResult(q2, t, j, d2)
    ensures ParseQuery(q1, t, d1) == ParseQuery(q2, t, d2)
  {
    if q1.Arr? {
      MapAgree(q1, q2, t, 0, d1, d2);
    } else {
      ReduceAgree(q1, q2, t, 0, d1, d2, map[]);
    }
  }

  lemma {:induction false} MapAgree(q1: Raw, q2: Raw, t: Tmpl, i: nat, d1: Val, d2: Val)
    requires (q1.Arr? || q1.Obj?) && (q2.Arr? || q2.Obj?)
    requires t.Branch? && i <= |t.entries|
    requires forall j :: i <= j < |t.entries| ==> EntryResult(q1, t, j, d1) == EntryResult(q2, t, j, d2)
    ensures MapEntries(q1, t, i, d1) == MapEntries(q2, t, i, d2)
    decreases |t.entries| - i
  {
    if i < |t.entries| {
      MapAgree(q1, q2, t, i + 1, d1, d2);
      assert EntryResult(q1, t, i, d1) == EntryResult(q2, t, i, d2);
      MapStep(q1, t, i, d1);
      MapStep(q2, t, i, d2);
    }
  }

  lemma {:induction false} ReduceAgree(q1: Raw, q2: Raw, t: Tmpl, i: nat, d1: Val, d2: Val, acc: map<string, Val>)
    requires (q1.Arr? || q1.Obj?) && (q2.Arr? || q2.Obj?)
    requires t.Branch? && i <= |t.entries|
    requires forall j :: i <= j < |t.entries| ==> EntryResult(q1, t, j, d1) == EntryResult(q2, t, j, d2)
    ensures ReduceEntries(q1, t, i, d1, acc) == ReduceEntries(q2, t, i, d2, acc)
    decreases |t.entries| - i
  {
    if i < |t.entries| {
      var x := EntryResult(q1, t, i, d1);
      assert x == EntryResult(q2, t, i, d2);
      ReduceStep(q1, t, i, d1, acc);
      ReduceStep(q2, t, i, d2, acc);
      if x.Ok? {
        ReduceAgree(q1, q2, t, i + 1, d1, d2, acc[t.entries[i].key := x.value]);
      }
    }
  }

  /** Defaults are looked up only by the template's keys: two defaults
      values that agree at every key of the template give the same output.
      In particular no defaults and an empty defaults object are alike. */
  lemma DefaultsOnlyByKey(q: Raw, t: Tmpl, d1: Val, d2: Val)
    requires (q.Arr? || q.Obj?) && t.Branch?
    requires forall j :: 0 <= j < |t.entries| ==> NextDefaults(d1, t.entries[j].key) == NextDefaults(d2, t.entries[j].key)
    ensures ParseQuery(q, t, d1) == ParseQuery(q, t, d2)
    ensures ParseQuery(q, t, Undef) == ParseQuery(q, t, VObj(map[]))
  {
    forall j | 0 <= j < |t.entries|
      ensures EntryResult(q, t, j, d1) == EntryResult(q, t, j, d2)
      ensures EntryResult(q, t, j, Undef) == EntryResult(q, t, j, VObj(map[]))
    {
      EntryIsLocal(q, q, t, j, d1, d2);
      EntryIsLocal(q, q, t, j, Undef, VObj(map[]));
    }
    SameSlotsSameOutput(q, q, t, d1, d2);
    SameSlotsSameOutput(q, q, t, Undef, VObj(map[]));
  }

  /** Two outcomes that throw together, and then with the same error. */
  predicate SameErrors<T>(x: Result<T>, y: Result<T>) {
    (x.Err? <==> y.Err?) && (x.Err? ==> x.error == y.error)
  }

  lemma {:induction false} MapSameErrors(q: Raw, t: Tmpl, i: nat, d1: Val, d2: Val)
    requires q.Arr? || q.Obj?
    requires t.Branch? && i <= |t.entries|
    requires forall j :: i <= j < |t.entries| ==> SameErrors(EntryResult(q, t, j, d1), EntryResult(q, t, j, d2))
    ensures SameErrors(MapEntries(q, t, i, d1), MapEntries(q, t, i, d2))
    decreases |t.entries| - i
  {
    if i < |t.entries| {
      MapSameErrors(q, t, i + 1, d1, d2);
      assert SameErrors(EntryResult(q, t, i, d1), EntryResult(q, t, i, d2));
      MapStep(q, t, i, d1);
      MapStep(q, t, i, d2);
    }
  }

  /** One step of `ReduceEntries` on two defaults values whose entry `i`
      throws alike: both throw alike now, or both go on to entry `i + 1`. */
  lemma ReduceSameErrorsStep(q: Raw, t: Tmpl, i: nat, d1: Val, d2: Val, acc1: map<string, Val>, acc2: map<string, Val>)
    requires q.Arr? || q.Obj?
    requires t.Branch? && i < |t.entries|
    requires SameErrors(EntryResult(q, t, i, d1), EntryResult(q, t, i, d2))
    ensures var x1, x2 := EntryResult(q, t, i, d1), EntryResult(q, t, i, d2);
      if x1.Err? then SameErrors(ReduceEntries(q, t, i, d1, acc1), ReduceEntries(q, t, i, d2, acc2))
      else
        && ReduceEntries(q, t, i, d1, acc1) == ReduceEntries(q, t, i + 1, d1, acc1[t.entries[i].key := x1.value])
        && ReduceEntries(q, t, i, d2, acc2) == ReduceEntries(q, t, i + 1, d2, acc2[t.entries[i].key := x2.value])
  {
    ReduceStep(q, t, i, d1, acc1);
    ReduceStep(q, t, i, d2, acc2);
  }

  lemma {:induction false} ReduceSameErrors(q: Raw, t: Tmpl, i: nat, d1: Val, d2: Val, acc1: map<string, Val>, acc2: map<string, Val>)
    requires q.Arr? || q.Obj?
    requires t.Branch? && i <= |t.entries|
    requires forall j :: i <= j < |t.entries| ==> SameErrors(EntryResult(q, t, j, d1), EntryResult(q, t, j, d2))
    ensures SameErrors(ReduceEntries(q, t, i, d1, acc1), ReduceEntries(q, t, i, d2, acc2))
    decreases |t.entries| - i
  {
    if i < |t.entries| {
      ReduceSameErrorsStep(q, t, i, d1, d2, acc1, acc2);
      var x1, x2 := EntryResult(q, t, i, d1), EntryResult(q, t, i, d2);
      if x1.Ok? {
        var k := t.entries[i].key;
        ReduceSameErrors(q, t, i + 1, d1, d2, acc1[k := x1.value], acc2[k := x2.value]);
      }
    }
  }

  /** Defaults never decide whether a parse throws, nor with which error:
      a default only replaces an `undefined` result, and a nested template
      throws on the shape of the query alone. */
  lemma {:induction false} ErrorsIgnoreDefaults(q: Raw, t: Tmpl, d1: Val, d2: Val)
    requires (q.Arr? || q.Obj?) && t.Branch?
    ensures ParseQuery(q, t, d1).Err? <==> ParseQuery(q, t, d2).Err?
    ensures ParseQuery(q, t, d1).Err? ==> ParseQuery(q, t, d1).error == ParseQuery(q, t, d2).error
    decreases t
  {
    forall j | 0 <= j < |t.entries|
      ensures SameErrors(EntryResult(q, t, j, d1), EntryResult(q, t, j, d2))
    {
      var e := t.entries[j];
      EntryUnfolds(q, t, j, d1);
      EntryUnfolds(q, t, j, d2);
      var v := Lookup(q, e.key);
      if e.node.Branch? && (v.Arr? || v.Obj?) {
        assert e in t.entries;
        ErrorsIgnoreDefaults(v, e.node, NextDefaults(d1, e.key), NextDefaults(d2, e.key));
      }
    }
    if q.Arr? {
      MapSameErrors(q, t, 0, d1, d2);
    } else {
      ReduceSameErrors(q, t, 0, d1, d2, map[], map[]);
    }
  }

  /** The query is looked up only by the template's keys: input keys that are
      not in the template are dropped. */
  lemma ExtraInputKeysIgnored(fields: map<string, Raw>, k: string, x: Raw, t: Tmpl, d: Val)
    requires t.Branch? && k !in Keys(t.entries)
    ensures ParseQuery(Obj(fields[k := x]), t, d) == ParseQuery(Obj(fields), t, d)
  {
    forall j | 0 <= j < |t.entries|
      ensures EntryResult(Obj(fields[k := x]), t, j, d) == EntryResult(Obj(fields), t, j, d)
    {
      assert t.entries[j].key in Keys(t.entries);
      EntryIsLocal(Obj(fields[k := x]), Obj(fields), t, j, d, d);
    }
    SameSlotsSameOutput(Obj(fields[k := x]), Obj(fields), t, d, d);
  }

  /** Changing the default of one key leaves every other key's output alone. */
  lemma SiblingDefaultsIndependent(q: Raw, t: Tmpl, m: map<string, Val>, k: string, x: Val, j: nat)
    requires q.Obj? && t.Branch? && KeysUnique(t.entries)
    requires j < |t.entries| && t.entries[j].key != k
    requires ParseQuery(q, t, VObj(m)).Ok? && ParseQuery(q, t, VObj(m[k := x])).Ok?
    ensures ParseQuery(q, t, VObj(m)).value.fields[t.entries[j].key]
         == ParseQuery(q, t, VObj(m[k := x])).value.fields[t.entries[j].key]
  {
    ObjectSlots(q, t, VObj(m));
    ObjectSlots(q, t, VObj(m[k := x]));
    EntryIsLocal(q, q, t, j, VObj(m), VObj(m[k := x]));
  }

  /** The leaf default law at a key of an object query: a defined parse
      result is kept, an `undefined` one becomes the default (itself
      `undefined` when there is none). */
  lemma LeafDefaultLaw(q: Raw, t: Tmpl, d: Val, j: nat)
    requires q.Obj? && t.Branch? && KeysUnique(t.entries)
    requires j < |t.entries| && t.entries[j].node.Leaf?
    requires IsLeafInput(Lookup(q, t.entries[j].key))
    requires ParseQuery(q, t, d).Ok?
    ensures var x := t.entries[j].node.parse(Lookup(q, t.entries[j].key));
      && x.Ok?
      && (x.value != Undef ==> ParseQuery(q, t, d).value.fields[t.entries[j].key] == x.value)
      && (x.value == Undef ==> ParseQuery(q, t, d).value.fields[t.entries[j].key] == NextDefaults(d, t.entries[j].key))
  {
    ObjectSlots(q, t, d);
    EntryUnfolds(q, t, j, d);
  }

  /** A template key missing from the query still gets its slot: the
      default at that key, or `undefined`, for every factory's parse function
      other than that of `Parsers.string` (which gives ""). */
  lemma MissingKeyTakesDefault(fields: map<string, Raw>, t: Tmpl, d: Val, j: nat, c: Coercer)
    requires t.Branch? && KeysUnique(t.entries)
    requires j < |t.entries| && t.entries[j].node == Leaf(ParserOf(c)) && t.entries[j].key !in fields
    requires ParseQuery(Obj(fields), t, d).Ok?
    ensures var out := ParseQuery(Obj(fields), t, d).value.fields[t.entries[j].key];
      && (!c.StringC? ==> out == NextDefaults(d, t.entries[j].key))
      && (c.StringC? ==> out == VStr(""))
  {
    ObjectSlots(Obj(fields), t, d);
    EntryUnfolds(Obj(fields), t, j, d);
    AbsentGivesUndefined(c);
  }

  /** Defaults never apply to a `Parsers.string` leaf. */
  lemma StringLeafIgnoresDefaults(v: Raw, trim: bool, d1: Val, d2: Val)
    requires IsLeafInput(v)
    ensures ParseString(v, ParserOf(StringC(trim)), d1) == ParseString(v, ParserOf(StringC(trim)), d2)
  {
    StringNeverUndefined(trim, v);
  }

  /** A parse function reached with a nested object, or with an array that
      holds something other than a string, throws; a nested template reached
      with a string or a missing value throws even when defaults exist for
      it. The empty array is a string array and goes to the parse function. */
  lemma StructuralErrors(q: Raw, key: string, t: Tmpl, p: Parser, d: Val)
    requires (q.Arr? || q.Obj?) && t.Branch?
    ensures !IsLeafInput(Lookup(q, key)) ==> ParseAny(q, key, Leaf(p), d) == Err(ParserGivenObject)
    ensures Lookup(q, key).Absent? || Lookup(q, key).Str? ==> ParseAny(q, key, t, d) == Err(TemplateGivenScalar)
    ensures Lookup(q, key) == Arr([]) ==> (ParseAny(q, key, Leaf(p), d).Err? <==> p(Arr([])).Err?)
  {
    assert IsStringArray(Arr([]));
  }
}
