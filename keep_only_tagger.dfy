/** The tagger that keeps only the metadata fields it is configured with and deletes all others. */
module KeepOnly {
  import opened Wrappers
  import opened JavaStrings
  import Lists
  import opened Metadata

  /** `Pattern.matches(regex, input)`: whether `regex` matches the whole of `input`; given by the caller. */
  type FullMatcher = (string, string) -> bool

  /** Whether a field named `name` is kept: some configured field equals it once both are
      trimmed, ignoring case; or the regex is not blank and matches the whole name. */
  predicate MustKeep(fields: seq<string>, fieldsRegex: Option<string>, name: string, fullMatch: FullMatcher) {
    (exists i :: 0 <= i < |fields| && EqualsIgnoreCase(Trim(fields[i]), Trim(name))) ||
    (!IsBlankOrNull(fieldsRegex) && fullMatch(fieldsRegex.value, name))
  }

  /** The metadata after the tagger ran: exactly the fields that must be kept, with their values. */
  function KeepOnly(metadata: Fields, fields: seq<string>, fieldsRegex: Option<string>, fullMatch: FullMatcher): Fields {
    map name | name in metadata && MustKeep(fields, fieldsRegex, name, fullMatch) :: metadata[name]
  }

  /** With no field listed and a blank regex nothing is kept, whatever the regex matcher says. */
  lemma NothingConfiguredKeepsNothing(metadata: Fields, fieldsRegex: Option<string>, fullMatch: FullMatcher)
    requires IsBlankOrNull(fieldsRegex)
    ensures KeepOnly(metadata, [], fieldsRegex, fullMatch) == map[]
  {
    assert KeepOnly(metadata, [], fieldsRegex, fullMatch).Keys == {};
  }

  /** Keeping is a restriction of the metadata: no field is added, every surviving field must be
      kept, and every field that must be kept survives with its values unchanged. */
  lemma KeepOnlySpec(metadata: Fields, fields: seq<string>, fieldsRegex: Option<string>, fullMatch: FullMatcher)
    ensures KeepOnly(metadata, fields, fieldsRegex, fullMatch).Keys <= metadata.Keys
    ensures forall name :: name in KeepOnly(metadata, fields, fieldsRegex, fullMatch) ==>
              MustKeep(fields, fieldsRegex, name, fullMatch)
    ensures forall name :: name in metadata && MustKeep(fields, fieldsRegex, name, fullMatch) ==>
              name in KeepOnly(metadata, fields, fieldsRegex, fullMatch) &&
              KeepOnly(metadata, fields, fieldsRegex, fullMatch)[name] == metadata[name]
  {
  }

  /** Running the tagger a second time changes nothing. */
  lemma KeepOnlyIdempotent(metadata: Fields, fields: seq<string>, fieldsRegex: Option<string>, fullMatch: FullMatcher)
    ensures KeepOnly(KeepOnly(metadata, fields, fieldsRegex, fullMatch), fields, fieldsRegex, fullMatch) ==
            KeepOnly(metadata, fields, fieldsRegex, fullMatch)
  {
  }

  /** The field list is matched after trimming and ignoring case: a listed " Title " keeps a
      field named "title". */
  lemma ListedFieldMatchesTrimmedIgnoringCase(fullMatch: FullMatcher)
    ensures MustKeep([" Title "], None, "title", fullMatch)
  {
    var listed: seq<string> := [" Title "];
    TrimPaddedTitle();
    TrimBareTitle();
    TitleIgnoringCase();
    assert listed[0] == " Title ";
    assert EqualsIgnoreCase(Trim(listed[0]), Trim("title"));
  }

  lemma TrimBareTitle()
    ensures Trim("title") == "title"
  {
    assert TrimStart("title") == "title";
    assert TrimEnd("title") == "title";
  }

  lemma TrimPaddedTitle()
    ensures Trim(" Title ") == "Title"
  {
    var listed := " Title ";
    assert listed[1..] == "Title " && "Title "[..5] == "Title";
    assert TrimStart("Title ") == "Title ";
    assert TrimStart(listed) == "Title ";
    assert TrimEnd("Title ") == "Title";
  }

  lemma TitleIgnoringCase()
    ensures EqualsIgnoreCase("Title", "title")
  {
    assert CharEqualsIgnoreCase('T', 't');
  }

  class KeepOnlyTagger {
    var fields: seq<string>
    var fieldsRegex: Option<string>

    constructor ()
      ensures fields == [] && fieldsRegex == None
    {
      fields := [];
      fieldsRegex := None;
    }

    method AddField(field: string)
      modifies this
      ensures fields == old(fields) + [field] && fieldsRegex == old(fieldsRegex)
    {
      fields := fields + [field];
    }

    /** Removes the first occurrence of `field` from the list (`List.remove(Object)`). */
    method RemoveField(field: string)
      modifies this
      ensures fields == Lists.RemoveFirst(old(fields), field) && fieldsRegex == old(fieldsRegex)
    {
      fields := Lists.RemoveFirst(fields, field);
    }

    method SetFieldsRegex(fieldsRegex': Option<string>)
      modifies this
      ensures fieldsRegex == fieldsRegex' && fields == old(fields)
    {
      fieldsRegex := fieldsRegex';
    }

    /** Deletes from `metadata` every field this tagger does not keep; with no field listed and no
        regex that means every field. */
    method TagApplicableDocument(reference: string, metadata: ImporterMetadata, parsed: bool, fullMatch: FullMatcher)
      modifies metadata
      ensures metadata.fields == KeepOnly(old(metadata.fields), fields, fieldsRegex, fullMatch)
    {
      if |fields| == 0 && IsBlankOrNull(fieldsRegex) {
        metadata.Clear();
        NothingConfiguredKeepsNothing(old(metadata.fields), fieldsRegex, fullMatch);
      } else {
        var names := metadata.fields.Keys;
        while names != {}
          invariant names <= old(metadata.fields).Keys
          invariant metadata.fields ==
                    map name | name in old(metadata.fields) && (name in names || MustKeep(fields, fieldsRegex, name, fullMatch))
                      :: old(metadata.fields)[name]
          decreases names
        {
          var name :| name in names;
          if !MustKeep(fields, fieldsRegex, name, fullMatch) {
            metadata.Remove(name);
          }
          names := names - {name};
        }
      }
    }
  }
}
