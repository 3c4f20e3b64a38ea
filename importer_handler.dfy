/** The handler base: the ordered list of restriction rules that decides whether a handler
    applies to a document, and the charset decision made before a text handler decodes bytes. */
module ImporterHandler {
  import opened Wrappers
  import opened JavaStrings
  import Lists
  import opened Metadata

  /** A restriction rule: a metadata field, a regular expression its values are matched
      against, and a case-sensitivity flag. `PropertyMatcher.equals` is not part of this model;
      two rules are taken to be equal when all three parts are. */
  datatype PropertyMatcher = PropertyMatcher(key: string, regex: string, caseSensitive: bool)

  /** `PropertyMatcher.matches(metadata)`, which lives outside this model: given by the caller. */
  type Matcher = (PropertyMatcher, Fields) -> bool

  /** A handler applies when it has no restriction, or when at least one of them matches. */
  predicate Applicable(rules: seq<PropertyMatcher>, metadata: Fields, matches: Matcher) {
    |rules| == 0 || exists i :: 0 <= i < |rules| && matches(rules[i], metadata)
  }

  /** Whether removal by field name takes `rule` out: the key is compared with `field` exactly
      for a case-sensitive rule and ignoring case otherwise. */
  predicate OnField(rule: PropertyMatcher, field: string) {
    if rule.caseSensitive then rule.key == field else EqualsIgnoreCase(rule.key, field)
  }

  /** The rules that survive removal by field name, in their original order. */
  function WithoutField(rules: seq<PropertyMatcher>, field: string): seq<PropertyMatcher> {
    if |rules| == 0 then []
    else (if OnField(rules[0], field) then [] else [rules[0]]) + WithoutField(rules[1..], field)
  }

  lemma {:induction false} WithoutFieldAppend(xs: seq<PropertyMatcher>, ys: seq<PropertyMatcher>, field: string)
    ensures WithoutField(xs + ys, field) == WithoutField(xs, field) + WithoutField(ys, field)
  {
    if |xs| == 0 {
      assert xs + ys == ys;
    } else {
      assert (xs + ys)[0] == xs[0];
      assert (xs + ys)[1..] == xs[1..] + ys;
      WithoutFieldAppend(xs[1..], ys, field);
    }
  }

  /** Removal by field name keeps exactly the rules not on that field and never reorders:
      a rule survives iff it was there and is not on `field`; a list with no rule on `field`
      comes back unchanged; and the number removed is the number of rules on `field`. */
  lemma {:induction false} WithoutFieldSpec(rules: seq<PropertyMatcher>, field: string)
    ensures forall r :: r in WithoutField(rules, field) <==> r in rules && !OnField(r, field)
    ensures (forall i :: 0 <= i < |rules| ==> !OnField(rules[i], field)) ==> WithoutField(rules, field) == rules
    ensures |rules| - |WithoutField(rules, field)| == CountOnField(rules, field)
  {
    if |rules| > 0 {
      WithoutFieldSpec(rules[1..], field);
      assert rules == [rules[0]] + rules[1..];
    }
  }

  /** One more rule seen by the in-place removal by field name: with the rules seen so far filtered
      in front of those still to see, the next rule is dropped exactly when it is on `field`. */
  lemma RemovalStep(original: seq<PropertyMatcher>, seen: nat, rules: seq<PropertyMatcher>, field: string)
    requires seen < |original| && rules == WithoutField(original[..seen], field) + original[seen..]
    ensures var i := |WithoutField(original[..seen], field)|;
            var next := WithoutField(original[..seen + 1], field) + original[seen + 1..];
            i < |rules| && rules[i] == original[seen] &&
            (OnField(original[seen], field) ==> rules[..i] + rules[i + 1..] == next && |WithoutField(original[..seen + 1], field)| == i) &&
            (!OnField(original[seen], field) ==> rules == next && |WithoutField(original[..seen + 1], field)| == i + 1)
  {
    var r := original[seen];
    var kept := WithoutField(original[..seen], field);
    assert original[..seen + 1] == original[..seen] + [r];
    WithoutFieldAppend(original[..seen], [r], field);
    assert WithoutField([r], field) == if OnField(r, field) then [] else [r];
    assert original[seen..] == [r] + original[seen + 1..];
    var i := |kept|;
    assert rules[..i] == kept && rules[i + 1..] == original[seen + 1..];
  }

  /** How many rules are on `field`. */
  function CountOnField(rules: seq<PropertyMatcher>, field: string): nat {
    if |rules| == 0 then 0 else (if OnField(rules[0], field) then 1 else 0) + CountOnField(rules[1..], field)
  }

  /** Adding rules to a handler that already has one never revokes its applicability. */
  lemma {:induction false} AddingKeepsApplicable(rules: seq<PropertyMatcher>, added: seq<PropertyMatcher>,
                                                 metadata: Fields, matches: Matcher)
    requires |rules| > 0 && Applicable(rules, metadata, matches)
    ensures Applicable(rules + added, metadata, matches)
  {
    var i :| 0 <= i < |rules| && matches(rules[i], metadata);
    assert (rules + added)[i] == rules[i];
  }

  /** On an unrestricted handler the first rule does restrict: adding a rule that does not
      match turns an applicable handler into one that does not apply. */
  lemma FirstRuleCanRevoke(rule: PropertyMatcher, metadata: Fields, matches: Matcher)
    requires !matches(rule, metadata)
    ensures Applicable([], metadata, matches)
    ensures !Applicable([] + [rule], metadata, matches)
  {
  }

  /** Removing the one rule that matches, from a list that keeps another rule, makes the
      handler stop applying. */
  lemma {:induction false} RemovingOnlyMatchRevokes(rules: seq<PropertyMatcher>, rule: PropertyMatcher,
                                                    metadata: Fields, matches: Matcher)
    requires |rules| >= 2 && rule in rules && matches(rule, metadata)
    requires forall i :: 0 <= i < |rules| && matches(rules[i], metadata) ==> rules[i] == rule
    requires multiset(rules)[rule] == 1
    ensures Applicable(rules, metadata, matches)
    ensures !Applicable(Lists.RemoveFirst(rules, rule), metadata, matches)
  {
    Lists.RemoveFirstSpec(rules, rule);
    var rest := Lists.RemoveFirst(rules, rule);
    assert multiset(rest)[rule] == 0;
    forall j | 0 <= j < |rest|
      ensures !matches(rest[j], metadata)
    {
      assert rest[j] in multiset(rest);
      assert rest[j] in rules;
      assert rest[j] != rule;
    }
  }

  /** The canonical UTF-8 name (`StandardCharsets.UTF_8.toString()`). */
  const UTF_8: string := "UTF-8"

  /** What `CharsetUtil.detectCharset` gives: a charset name (possibly null) or an `IOException`. */
  datatype Detection = Detected(charset: Option<string>) | DetectionFailed

  /** Tika's `CharsetUtils.clean`: the canonical name of a charset, or null for a name it does
      not support. Given by the caller. */
  type Cleaner = string -> Option<string>

  /** The charset to decode a document with, first applicable decision winning: UTF-8 for a
      parsed document; else the cleaned explicit charset when it is not blank; else the result
      of detection hinted with the declared encoding, cleaned -- UTF-8 when detection finds
      nothing, and the cleaned UTF-8 name when detection fails. A null from cleaning is
      returned as it is. `detect` stands for `CharsetUtil.detectCharset` on the document's stream. */
  function DetectCharsetIfBlank(charset: Option<string>, metadata: ImporterMetadata?, parsed: bool,
                                detect: Option<string> -> Detection, clean: Cleaner): (r: Option<string>)
    reads metadata
    ensures parsed ==> r == Some(UTF_8)
    ensures !parsed && !IsBlankOrNull(charset) ==> r == clean(charset.value)
    ensures !parsed && IsBlankOrNull(charset) ==>
              var declared := if metadata == null then None else metadata.GetString(DOC_CONTENT_ENCODING);
              match detect(declared)
              case DetectionFailed => r == clean(UTF_8)
              case Detected(found) => r == if IsBlankOrNull(found) then Some(UTF_8) else clean(found.value)
  {
    if parsed then Some(UTF_8)
    else if !IsBlankOrNull(charset) then clean(charset.value)
    else
      var declared := if metadata == null then None else metadata.GetString(DOC_CONTENT_ENCODING);
      assert !IsWhitespace(UTF_8[0]);
      var detected := match detect(declared)
                      case DetectionFailed => Some(UTF_8)
                      case Detected(found) => found;
      if IsBlankOrNull(detected) then Some(UTF_8) else clean(detected.value)
  }

  /** The detector only matters for an unparsed document without an explicit charset, and then
      only through its answer for the declared encoding (the first `document.contentEncoding` value). */
  lemma DetectorConsultedOnlyWhenBlank(charset: Option<string>, metadata: ImporterMetadata?, parsed: bool,
                                       detect1: Option<string> -> Detection, detect2: Option<string> -> Detection,
                                       clean: Cleaner)
    requires parsed || !IsBlankOrNull(charset) ||
             detect1(if metadata == null then None else metadata.GetString(DOC_CONTENT_ENCODING)) ==
             detect2(if metadata == null then None else metadata.GetString(DOC_CONTENT_ENCODING))
    ensures DetectCharsetIfBlank(charset, metadata, parsed, detect1, clean) ==
            DetectCharsetIfBlank(charset, metadata, parsed, detect2, clean)
  {
  }

  /** The decision never yields a blank name as long as cleaning never does; it yields null only
      for an unparsed document, when cleaning refused the name it was given: the explicit charset
      when there is one, otherwise the detected name, or UTF-8 when detection failed. */
  lemma CharsetNeverBlank(charset: Option<string>, metadata: ImporterMetadata?, parsed: bool,
                          detect: Option<string> -> Detection, clean: Cleaner)
    requires forall s :: clean(s).Some? ==> !IsBlank(clean(s).value)
    ensures var r := DetectCharsetIfBlank(charset, metadata, parsed, detect, clean);
            r.Some? ==> !IsBlank(r.value)
    ensures DetectCharsetIfBlank(charset, metadata, parsed, detect, clean).None? ==>
              && !parsed
              && if !IsBlankOrNull(charset) then clean(charset.value).None?
                 else
                   var declared := if metadata == null then None else metadata.GetString(DOC_CONTENT_ENCODING);
                   match detect(declared)
                   case DetectionFailed => clean(UTF_8).None?
                   case Detected(found) => !IsBlankOrNull(found) && clean(found.value).None?
  {
    assert !IsWhitespace(UTF_8[0]);
    var r := DetectCharsetIfBlank(charset, metadata, parsed, detect, clean);
    if r.None? {
      if !IsBlankOrNull(charset) {
        assert clean(charset.value).None?;
      } else {
        var declared := if metadata == null then None else metadata.GetString(DOC_CONTENT_ENCODING);
        match detect(declared)
        case DetectionFailed => assert clean(UTF_8).None?;
        case Detected(found) => assert clean(found.value).None?;
      }
    }
  }

  class AbstractImporterHandler {
    var restrictions: seq<PropertyMatcher>

    constructor ()
      ensures restrictions == []
    {
      restrictions := [];
    }

    /** Appends one rule built from its three parts. */
    method AddRestriction(field: string, regex: string, caseSensitive: bool)
      modifies this
      ensures restrictions == old(restrictions) + [PropertyMatcher(field, regex, caseSensitive)]
    {
      restrictions := restrictions + [PropertyMatcher(field, regex, caseSensitive)];
    }

    /** Appends the given rules one by one, in order (the varargs `addRestriction`). */
    method AddRestrictionMatchers(restriction: seq<PropertyMatcher>)
      modifies this
      ensures restrictions == old(restrictions) + restriction
    {
      for k := 0 to |restriction|
        invariant restrictions == old(restrictions) + restriction[..k]
      {
        restrictions := restrictions + [restriction[k]];
      }
    }

    /** Appends the rules of a list, in order; a null list changes nothing. */
    method AddRestrictions(restrictions': Option<seq<PropertyMatcher>>)
      modifies this
      ensures restrictions == old(restrictions) + restrictions'.GetOr([])
    {
      if restrictions'.Some? {
        var list := restrictions'.value;
        for k := 0 to |list|
          invariant restrictions == old(restrictions) + list[..k]
        {
          restrictions := restrictions + [list[k]];
        }
      }
    }

    /** Removes every rule on `field` (per each rule's own case sensitivity) and says how many
        went; the others stay in their order. */
    method RemoveRestrictionsOnField(field: string) returns (count: int)
      modifies this
      ensures restrictions == WithoutField(old(restrictions), field)
      ensures count == |old(restrictions)| - |restrictions|
    {
      ghost var original := restrictions;
      ghost var seen := 0;
      var i := 0;
      count := 0;
      while i < |restrictions|
        invariant 0 <= i <= |restrictions| && seen == i + count && seen <= |original|
        invariant restrictions == WithoutField(original[..seen], field) + original[seen..]
        invariant i == |WithoutField(original[..seen], field)|
        decreases |restrictions| - i
      {
        RemovalStep(original, seen, restrictions, field);
        var r := restrictions[i];
        if OnField(r, field) {
          restrictions := restrictions[..i] + restrictions[i + 1..];
          count := count + 1;
        } else {
          i := i + 1;
        }
        seen := seen + 1;
      }
      assert original[..seen] == original;
    }

    /** Removes the first rule equal to `restriction`; says whether there was one. */
    method RemoveRestriction(restriction: PropertyMatcher) returns (removed: bool)
      modifies this
      ensures removed <==> restriction in old(restrictions)
      ensures restrictions == Lists.RemoveFirst(old(restrictions), restriction)
    {
      removed := Lists.IndexOf(restrictions, restriction) >= 0;
      restrictions := Lists.RemoveFirst(restrictions, restriction);
    }

    /** Removes every rule, which makes the handler unconditional. */
    method ClearRestrictions()
      modifies this
      ensures restrictions == []
    {
      restrictions := [];
    }

    /** Whether this handler applies to a document with `metadata`: it does when unrestricted,
        and otherwise exactly when some rule matches. */
    method IsApplicable(reference: string, metadata: Fields, parsed: bool, matches: Matcher)
      returns (applicable: bool)
      ensures applicable == Applicable(restrictions, metadata, matches)
      ensures |restrictions| == 0 ==> applicable
      ensures |restrictions| > 0 ==>
                (applicable <==> exists i :: 0 <= i < |restrictions| && matches(restrictions[i], metadata))
    {
      if |restrictions| == 0 {
        return true;
      }
      var k := 0;
      while k < |restrictions|
        invariant 0 <= k <= |restrictions|
        invariant forall i :: 0 <= i < k ==> !matches(restrictions[i], metadata)
      {
        if matches(restrictions[k], metadata) {
          return true;
        }
        k := k + 1;
      }
      return false;
    }
  }
}
