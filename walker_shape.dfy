/**
 The output of `parse` mirrors the template level by level, with the
 container kind taken from the query; an array of parse functions reads the
 query and the defaults by position.
 */
module WalkerShape {
  import opened Values
  import opened Decimal
  import opened Walker
  import opened WalkerLaws

  /** Every level of the template has distinct keys, as JavaScript objects do. */
  predicate WellKeyed(t: Tmpl)
    decreases t
  {
    match t
    case Leaf(_) => true
    case Branch(es) =>
      KeysUnique(es) && forall j :: 0 <= j < |es| ==> WellKeyed(es[j].node)
  }

  /** `v` has the shape of `t`: each nested template is answered by an array
      with one slot per entry or by an object with exactly the entry keys,
      and so on down; a leaf may hold any value. */
  predicate Conforms(v: Val, t: Tmpl)
    decreases t
  {
    match t
    case Leaf(_) => true
    case Branch(es) =>
      || (v.VArr? && |v.items| == |es| && forall j :: 0 <= j < |es| ==> Conforms(v.items[j], es[j].node))
      || (v.VObj? && v.fields.Keys == Keys(es)
          && forall j :: 0 <= j < |es| ==> es[j].key in v.fields && Conforms(v.fields[es[j].key], es[j].node))
  }

  /** A successful parse has the template's shape at every depth. */
  lemma {:induction false} ShapeMirrorsTemplate(q: Raw, t: Tmpl, d: Val)
    requires (q.Arr? || q.Obj?) && t.Branch? && WellKeyed(t)
    requires ParseQuery(q, t, d).Ok?
    ensures Conforms(ParseQuery(q, t, d).value, t)
    decreases t
  {
    var v := ParseQuery(q, t, d).value;
    var es := t.entries;
    forall j | 0 <= j < |es|
      ensures EntryResult(q, t, j, d).Ok? && Conforms(EntryResult(q, t, j, d).value, es[j].node)
    {
      QueryErrors(q, t, d);
      assert EntryResult(q, t, j, d).Ok?;
      EntryUnfolds(q, t, j, d);
      var e := es[j];
      assert e in es;
      if e.node.Branch? {
        var sub := Lookup(q, e.key);
        assert !(sub.Absent? || sub.Str?);
        if sub.Arr? || sub.Obj? {
          ShapeMirrorsTemplate(sub, e.node, NextDefaults(d, e.key));
        }
      }
    }
    if q.Arr? {
      ArraySlots(q, t, d);
    } else {
      ObjectSlots(q, t, d);
      forall j | 0 <= j < |es| ensures es[j].key in v.fields {
        assert es[j].key in Keys(es);
      }
    }
  }

  /** The defaults at position `i` of an array of defaults: index keys name
      the elements and nothing past the end. */
  lemma IndexDefaults(ds: seq<Val>, i: nat)
    ensures NextDefaults(VArr(ds), NatToString(i)) == if i < |ds| then ds[i] else Undef
  {
    NatToStringIsIndexKey(i);
    NatRoundTrip(i);
  }

  /** The element at position `i` of an array query, `Absent` past its end. */
  lemma IndexLookup(items: seq<Raw>, i: nat)
    ensures Lookup(Arr(items), NatToString(i)) == if i < |items| then items[i] else Absent
  {
    NatToStringIsIndexKey(i);
    NatRoundTrip(i);
  }

  /** The keys of an array of parse functions are distinct. */
  lemma ArrayTemplateWellKeyed(ps: seq<Parser>)
    ensures WellKeyed(ArrayTemplate(ps))
  {
    var es := ArrayTemplate(ps).entries;
    forall i, j | 0 <= i < j < |es| ensures es[i].key != es[j].key {
      NatToStringInjective(i, j);
    }
  }

  /** An array of parse functions applied to an array query: slot `i` is
      parse function `i` on element `i` (missing past the end), falling back
      to element `i` of an array of defaults; extra query elements are
      dropped. */
  lemma {:induction false} PositionalTemplate(items: seq<Raw>, ps: seq<Parser>, ds: seq<Val>)
    ensures var r := ParseQuery(Arr(items), ArrayTemplate(ps), VArr(ds));
      && (r.Ok? <==> forall i :: 0 <= i < |ps| ==> ParseString(if i < |items| then items[i] else Absent, ps[i], if i < |ds| then ds[i] else Undef).Ok?)
      && (r.Ok? ==> r.value.VArr? && |r.value.items| == |ps|)
      && (r.Ok? ==> forall i :: 0 <= i < |ps| ==>
            r.value.items[i] == ParseString(if i < |items| then items[i] else Absent, ps[i], if i < |ds| then ds[i] else Undef).value)
  {
    var q := Arr(items);
    var t := ArrayTemplate(ps);
    var d := VArr(ds);
    forall i | 0 <= i < |ps|
      ensures EntryResult(q, t, i, d) == ParseString(if i < |items| then items[i] else Absent, ps[i], if i < |ds| then ds[i] else Undef)
    {
      EntryUnfolds(q, t, i, d);
      IndexLookup(items, i);
      IndexDefaults(ds, i);
    }
    ArrayTemplateWellKeyed(ps);
    QueryErrors(q, t, d);
    if ParseQuery(q, t, d).Ok? {
      ArraySlots(q, t, d);
    }
  }
}
