/**
 A whole parse from the repository's tests: an object query through a
 template of four parse functions, with a default for one key.
 */
module WalkerExamples {
  import opened Values
  import opened Text
  import opened ScalarParsers
  import opened Parsers
  import opened Walker
  import opened WalkerLaws

  /** Loose equality between a string candidate and a text. */
  function StringEquals(c: Val, t: string): bool {
    c.VStr? && c.s == t
  }

  function UserQuery(role: string): Raw {
    Obj(map["id" := Str("123456"), "name" := Str("jimmy "), "active" := Str("true"), "role" := Str(role)])
  }

  function UserTemplate(): Tmpl {
    Branch([
      Entry("id", Leaf(ParserOf(NaturalC))),
      Entry("name", Leaf(ParserOf(StringC(true)))),
      Entry("active", Leaf(ParserOf(BooleanC))),
      Entry("role", Leaf(ParserOf(RoleEnum())))])
  }

  lemma TrimTrailingBlank()
    ensures Trim("jimmy ") == "jimmy"
  {
    assert !IsWhite('j') && IsWhite(' ') && !IsWhite('y');
    assert TrimStart("jimmy ") == "jimmy ";
    assert "jimmy "[..5] == "jimmy";
    assert TrimEnd("jimmy") == "jimmy";
  }

  function UserDefaults(): Val {
    VObj(map["role" := VStr("GUEST")])
  }

  function RoleEnum(): Coercer {
    EnumC([VStr("GUEST"), VStr("USER")], StringEquals)
  }

  /** What each parse function of the template makes of its text. */
  lemma IdText()
    ensures ParserOf(NaturalC)(Str("123456")) == Ok(VInt(123456))
  {
    ApplyCases(NaturalC, Str("123456"));
    SignAndFractionExamples();
  }

  lemma NameText()
    ensures ParserOf(StringC(true))(Str("jimmy ")) == Ok(VStr("jimmy"))
  {
    ApplyCases(StringC(true), Str("jimmy "));
    TrimTrailingBlank();
  }

  lemma ActiveText()
    ensures ParserOf(BooleanC)(Str("true")) == Ok(VBool(true))
  {
    assert Trim("true") == "true" by { TrimKeepsTrimmed("true"); }
    ApplyCases(BooleanC, Str("true"));
  }

  lemma RoleText(role: string)
    requires Trim(role) != "GUEST" && Trim(role) != "USER"
    ensures ParserOf(RoleEnum())(Str(role)) == Ok(Undef)
  {
    var cands := [VStr("GUEST"), VStr("USER")];
    assert FirstMatch(cands, StringEquals, Trim(role)) == None by {
      assert !StringEquals(cands[0], Trim(role)) && !StringEquals(cands[1], Trim(role));
    }
    ApplyCases(RoleEnum(), Str(role));
  }

  /** The query's value and the default at each key of the template. */
  lemma UserSlots(role: string)
    ensures var q, es, d := UserQuery(role), UserTemplate().entries, UserDefaults();
      && es[0] == Entry("id", Leaf(ParserOf(NaturalC))) && Lookup(q, "id") == Str("123456") && NextDefaults(d, "id") == Undef
      && es[1] == Entry("name", Leaf(ParserOf(StringC(true)))) && Lookup(q, "name") == Str("jimmy ") && NextDefaults(d, "name") == Undef
      && es[2] == Entry("active", Leaf(ParserOf(BooleanC))) && Lookup(q, "active") == Str("true") && NextDefaults(d, "active") == Undef
      && es[3] == Entry("role", Leaf(ParserOf(RoleEnum()))) && Lookup(q, "role") == Str(role) && NextDefaults(d, "role") == VStr("GUEST")
  {
  }

  /** The result of each of the four entries. */
  lemma UserEntries(role: string)
    requires Trim(role) != "GUEST" && Trim(role) != "USER"
    ensures EntryResult(UserQuery(role), UserTemplate(), 0, UserDefaults()) == Ok(VInt(123456))
    ensures EntryResult(UserQuery(role), UserTemplate(), 1, UserDefaults()) == Ok(VStr("jimmy"))
    ensures EntryResult(UserQuery(role), UserTemplate(), 2, UserDefaults()) == Ok(VBool(true))
    ensures EntryResult(UserQuery(role), UserTemplate(), 3, UserDefaults()) == Ok(VStr("GUEST"))
  {
    var q, t, d := UserQuery(role), UserTemplate(), UserDefaults();
    assert EntryResult(q, t, 0, d) == Ok(VInt(123456)) by {
      IdText();
      UserSlots(role);
      EntryUnfolds(q, t, 0, d);
    }
    assert EntryResult(q, t, 1, d) == Ok(VStr("jimmy")) by {
      NameText();
      UserSlots(role);
      EntryUnfolds(q, t, 1, d);
    }
    assert EntryResult(q, t, 2, d) == Ok(VBool(true)) by {
      ActiveText();
      UserSlots(role);
      EntryUnfolds(q, t, 2, d);
    }
    assert EntryResult(q, t, 3, d) == Ok(VStr("GUEST")) by {
      RoleText(role);
      UserSlots(role);
      EntryUnfolds(q, t, 3, d);
    }
  }

  /** The expected output of the 'with defaults' test. */
  function UserOutput(): map<string, Val> {
    map["id" := VInt(123456), "name" := VStr("jimmy"), "active" := VBool(true), "role" := VStr("GUEST")]
  }

  lemma UserOutputFitsTemplate()
    ensures var es := UserTemplate().entries;
      && KeysUnique(es)
      && UserOutput().Keys == Keys(es)
      && UserOutput()[es[0].key] == VInt(123456)
      && UserOutput()[es[1].key] == VStr("jimmy")
      && UserOutput()[es[2].key] == VBool(true)
      && UserOutput()[es[3].key] == VStr("GUEST")
  {
    var es := UserTemplate().entries;
    assert es[0].key == "id" && es[1].key == "name" && es[2].key == "active" && es[3].key == "role";
  }

  /** The 'with defaults' test: "MASTER" is not a candidate of the enum, so
      the role falls back to the default "GUEST"; the natural, the trimmed
      name and the boolean are parsed from their texts. Any role text that
      is not a candidate after trimming does the same. */
  lemma WithDefaultsExample(role: string)
    requires Trim(role) != "GUEST" && Trim(role) != "USER"
    ensures ParseQuery(UserQuery(role), UserTemplate(), UserDefaults()) == Ok(VObj(UserOutput()))
  {
    var q, t, d := UserQuery(role), UserTemplate(), UserDefaults();
    var es := t.entries;
    UserOutputFitsTemplate();
    UserEntries(role);
    forall j | 0 <= j < |es| ensures EntryResult(q, t, j, d) == Ok(UserOutput()[es[j].key]) {
      if j == 0 {
      } else if j == 1 {
      } else if j == 2 {
      } else {
        assert j == 3;
      }
    }
    ObjectResult(q, t, d, UserOutput());
  }

  lemma MasterFallsBackToGuest()
    ensures ParseQuery(UserQuery("MASTER"), UserTemplate(), UserDefaults()) == Ok(VObj(UserOutput()))
  {
    assert Trim("MASTER") == "MASTER" by { TrimKeepsTrimmed("MASTER"); }
    WithDefaultsExample("MASTER");
  }
}
