/** The tagger that forces configured metadata fields down to a single value. */
module ForceSingleValue {
  import opened Wrappers
  import opened JavaStrings
  import opened Metadata

  /** The one value that replaces `values` under `action`: the first value for `keepFirst`, the
      last for `keepLast` (both compared ignoring case); for an action starting with `mergeWith`
      (ignoring case), all values joined by what follows the action's first `:` (nothing when
      there is no `:`); for any other action, all values joined by a comma. */
  function SingleValue(action: string, values: seq<string>): (r: string)
    requires |values| > 0
  {
    if EqualsIgnoreCase("keepFirst", action) then values[0]
    else if EqualsIgnoreCase("keepLast", action) then values[|values| - 1]
    else if StartsWithIgnoreCase(action, "mergeWith") then Join(values, SubstringAfter(action, ':'))
    else Join(values, ",")
  }

  /** Whether the tagger rewrites a field with `values` under `action`: only when it has at
      least one value and the action is not blank. */
  predicate Collapses(values: seq<string>, action: string) {
    |values| > 0 && !IsBlank(action)
  }

  /** The metadata once the configured fields in `done` have been processed. */
  function ForcedOn(metadata: Fields, singleFields: map<string, string>, done: set<string>): Fields {
    map name | name in metadata ::
      if name in done && name in singleFields && Collapses(metadata[name], singleFields[name])
      then [SingleValue(singleFields[name], metadata[name])]
      else metadata[name]
  }

  /** Processing one more configured field rewrites that field alone, read from the metadata
      as processed so far, where an absent field has no values. */
  lemma ForcedOnStep(metadata: Fields, singleFields: map<string, string>, done: set<string>, name: string)
    requires name !in done && name in singleFields
    ensures var current := ForcedOn(metadata, singleFields, done);
            var values := if name in current then current[name] else [];
            ForcedOn(metadata, singleFields, done + {name}) ==
              if Collapses(values, singleFields[name]) then current[name := [SingleValue(singleFields[name], values)]]
              else current
  {
  }

  /** The metadata after the tagger ran. */
  function ForceSingleValues(metadata: Fields, singleFields: map<string, string>): Fields {
    ForcedOn(metadata, singleFields, singleFields.Keys)
  }

  /** The tagger adds and removes no field; a configured field with values and a non-blank
      action ends with exactly the one value its action picks; every other field keeps its values. */
  lemma ForceSingleValuesSpec(metadata: Fields, singleFields: map<string, string>)
    ensures ForceSingleValues(metadata, singleFields).Keys == metadata.Keys
    ensures forall name :: name in metadata && name in singleFields && Collapses(metadata[name], singleFields[name]) ==>
              ForceSingleValues(metadata, singleFields)[name] == [SingleValue(singleFields[name], metadata[name])]
    ensures forall name :: name in metadata && !(name in singleFields && Collapses(metadata[name], singleFields[name])) ==>
              ForceSingleValues(metadata, singleFields)[name] == metadata[name]
  {
  }

  /** Every action leaves a single value unchanged. */
  lemma {:induction false} SingleValueOfOne(action: string, v: string)
    ensures SingleValue(action, [v]) == v
  {
    assert Join([v], SubstringAfter(action, ':')) == v;
    assert Join([v], ",") == v;
  }

  /** Running the tagger a second time changes nothing. */
  lemma {:induction false} ForceSingleValuesIdempotent(metadata: Fields, singleFields: map<string, string>)
    ensures ForceSingleValues(ForceSingleValues(metadata, singleFields), singleFields) ==
            ForceSingleValues(metadata, singleFields)
  {
    var once := ForceSingleValues(metadata, singleFields);
    forall name | name in once
      ensures ForceSingleValues(once, singleFields)[name] == once[name]
    {
      if name in singleFields && Collapses(once[name], singleFields[name]) {
        if Collapses(metadata[name], singleFields[name]) {
          SingleValueOfOne(singleFields[name], SingleValue(singleFields[name], metadata[name]));
        }
      }
    }
  }

  /** `keepFirst` over "Jane", "John" gives "Jane". */
  lemma KeepFirstExample()
    ensures SingleValue("keepFirst", ["Jane", "John"]) == "Jane"
  {
    assert EqualsIgnoreCase("keepFirst", "keepFirst");
  }

  /** `KEEPLAST` (the action is compared ignoring case) over "Jane", "John" gives "John". */
  lemma KeepLastExample()
    ensures SingleValue("KEEPLAST", ["Jane", "John"]) == "John"
  {
    assert !CharEqualsIgnoreCase("keepFirst"[4], "KEEPLAST"[4]);
    assert EqualsIgnoreCase("keepLast", "KEEPLAST") by {
      forall i | 0 <= i < 8 ensures CharEqualsIgnoreCase("keepLast"[i], "KEEPLAST"[i]) {
        assert ToUpper("keepLast"[i]) == "KEEPLAST"[i];
      }
    }
  }

  lemma JoinTwo(a: string, b: string, sep: string)
    ensures Join([a, b], sep) == a + sep + b
  {
    assert [a, b][1..] == [b];
  }

  /** `mergeWith:;` over "Jane", "John" gives "Jane;John". */
  lemma MergeWithExample()
    ensures SingleValue("mergeWith:;", ["Jane", "John"]) == "Jane;John"
  {
    assert "Jane" + ";" + "John" == "Jane;John";
    var action := "mergeWith:;";
    assert !EqualsIgnoreCase("keepFirst", action) && !EqualsIgnoreCase("keepLast", action);
    assert StartsWithIgnoreCase(action, "mergeWith") by {
      assert action[..9] == "mergeWith";
    }
    assert SubstringAfter(action, ':') == ";" by {
      assert action[..9] == "mergeWith";
      SubstringAfterAt(action, ':', 9);
    }
    JoinTwo("Jane", "John", ";");
  }

  /** An action that is none of the three, such as `merge`, joins "Jane", "John" with a comma. */
  lemma DefaultJoinExample()
    ensures SingleValue("merge", ["Jane", "John"]) == "Jane,John"
  {
    assert "Jane" + "," + "John" == "Jane,John";
    assert !CharEqualsIgnoreCase("keepFirst"[0], "merge"[0]);
    assert !CharEqualsIgnoreCase("keepLast"[0], "merge"[0]);
    JoinTwo("Jane", "John", ",");
  }

  class ForceSingleValueTagger {
    var singleFields: map<string, string>

    constructor ()
      ensures singleFields == map[]
    {
      singleFields := map[];
    }

    /** Sets the action for `field`, replacing any earlier one; a null field or action is ignored. */
    method AddSingleValueField(field: Option<string>, action: Option<string>)
      modifies this
      ensures field.Some? && action.Some? ==> singleFields == old(singleFields)[field.value := action.value]
      ensures field.None? || action.None? ==> singleFields == old(singleFields)
    {
      if field.Some? && action.Some? {
        singleFields := singleFields[field.value := action.value];
      }
    }

    method RemoveSingleValueField(name: string)
      modifies this
      ensures singleFields == old(singleFields) - {name}
    {
      singleFields := singleFields - {name};
    }

    /** Replaces the values of each configured field by the single value its action picks. */
    method TagApplicableDocument(reference: string, metadata: ImporterMetadata, parsed: bool)
      modifies metadata
      ensures metadata.fields == ForceSingleValues(old(metadata.fields), singleFields)
    {
      ghost var original := metadata.fields;
      var names := singleFields.Keys;
      ghost var done: set<string> := {};
      while names != {}
        invariant names !! done && names + done == singleFields.Keys
        invariant metadata.fields == ForcedOn(original, singleFields, done)
        decreases names
      {
        var name :| name in names;
        var values := metadata.GetStrings(name);
        var action := singleFields[name];
        ForcedOnStep(original, singleFields, done, name);
        if |values| > 0 && !IsBlank(action) {
          var singleValue := SingleValue(action, values);
          metadata.SetString(name, singleValue);
        }
        names := names - {name};
        done := done + {name};
      }
    }
  }
}
