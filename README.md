# Norconex Importer handler runtime, modelled in Dafny

This project models the part of the Norconex Importer that every document handler shares, together
with three handlers built on it:

- `AbstractImporterHandler`. It keeps the ordered list of restriction rules (`PropertyMatcher`s).
  A handler applies to a document when the list is empty or when at least one rule matches the
  document's metadata. It also picks the charset a text handler decodes with (`detectCharsetIfBlank`).
- `KeepOnlyTagger` deletes every metadata field that is neither listed nor matched by its regex.
- `ForceSingleValueTagger` collapses configured multi-valued fields to one value (`keepFirst`,
  `keepLast`, `mergeWith:<sep>`, or a comma join).
- `AbstractStringTransformer` is the driver of every string transformer. It reads the document one
  character at a time into a buffer. Each time the buffer reaches a multiple of 51200 characters it
  runs a memory check, and when the buffer takes too much memory it hands a partial chunk to the
  transformer. What is left at the end of input goes over as a final chunk.
- `StripBeforeTransformer` deletes, in place, everything before the first match of its regex, or
  everything through the end of that match when inclusive.

What is state in the source is state in the model:

- The handler's rule list, the taggers' configuration and the transformer's flags are fields of classes.
- The document's metadata is a class `Metadata.ImporterMetadata` whose `fields` map the handlers
  rewrite in place.
- The transformer's buffer is a `StringBuilder` class.

Each state-changing method is proved against a function: `WithoutField`, `KeepOnly`,
`ForceSingleValues`, `Run`/`Written` and `Strip`. The lemmas state what the source promises
about those functions.

Code the handlers call but that is not modelled is passed in as function-typed parameters:

- `PropertyMatcher.matches`;
- the regex engine (`Pattern.matches`, `Matcher.find`);
- `CharsetUtil.detectCharset`;
- Tika's `CharsetUtils.clean`;
- `MemoryUtil.getFreeMemory`, as a function of how many characters have been read;
- the transformer's `transformStringContent`.

Where the source tests for `null`, the model uses `Option`: the charset passed to
`detectCharsetIfBlank`, what `clean` returns, the taggers' regex, the strip regex and the arguments
of `addSingleValueField`. Field names, rule keys and rules are plain values everywhere else. A
`null` field given to `removeRestriction(String)` or `KeepOnlyTagger.removeField` would match
nothing and remove nothing. A `null` key or rule stored by `addRestriction`, `addRestrictions` or
`KeepOnlyTagger.addField` makes later calls throw; these cases are listed under "Left out".

Files:

- `wrappers.dfy`: `Option`.
- `lists.dfy`: `List.indexOf` and `List.remove(Object)`.
- `java_strings.dfy`: `trim`, `equalsIgnoreCase`, `isBlank`, `substringAfter`, `join`.
- `metadata.dfy`: the metadata.
- `importer_handler.dfy`, `keep_only_tagger.dfy`, `force_single_value_tagger.dfy`,
  `string_transformer.dfy`, `strip_before_transformer.dfy`: the five source classes.

## Notes on the code

- **Failed charset detection.** When `CharsetUtil.detectCharset` throws, the detected name is
  "UTF-8" (`AbstractImporterHandler.java` line 224). It is not blank, so it goes through `clean`
  at line 233. The result is therefore `clean("UTF-8")`.
- **Cleaning.** Only a detection that finds nothing is replaced by UTF-8 (lines 228-229). Whatever
  `clean` returns is returned as is, null included (lines 213 and 233).
- **keepLast doc comment.** The Javadoc of `ForceSingleValueTagger.java` at line 42 says `keepLast`
  keeps the first occurrence. The code at line 88 keeps the last one.
- **Missing action.** The Javadoc at `ForceSingleValueTagger.java` lines 47-48 says that without an
  action all values are joined with a comma. The code never stores a null action (lines 105-109),
  and it leaves a field with a blank action untouched (lines 82-83). The comma join at line 94 is
  reached only by a non-blank action other than the three named ones.
- **Adding rules.** Adding rules keeps a handler applicable only when it already had one. On an
  unrestricted handler, the first rule can make it stop applying, because `isApplicable` returns
  true for an empty list at line 174 (`FirstRuleCanRevoke`).

## Model

| member | source | states |
|---|---|---|
| Lists.IndexOf | norconex-importer/src/main/java/com/norconex/importer/handler/AbstractImporterHandler.java:143-145 | the index is -1 exactly when the rule is absent; otherwise it holds the rule and no earlier position does |
| Lists.RemoveFirst | norconex-importer/src/main/java/com/norconex/importer/handler/AbstractImporterHandler.java:143-145 | the list without its first element equal to the given one, or the list itself when there is none |
| Lists.RemoveFirstSpec | norconex-importer/src/main/java/com/norconex/importer/handler/AbstractImporterHandler.java:143-145 | `List.remove(Object)`: the list is unchanged when the element is absent; otherwise exactly one element goes, the first equal one, the others keep their order, and the multiset loses one copy |
| JavaStrings.IsBlank | norconex-importer/src/main/java/com/norconex/importer/handler/tagger/impl/KeepOnlyTagger.java:83 | a string is blank when each of its characters is whitespace, so the empty string is blank |
| JavaStrings.IsBlankOrNull | norconex-importer/src/main/java/com/norconex/importer/handler/tagger/impl/ForceSingleValueTagger.java:82-83 | `StringUtils.isBlank`: null, or blank |
| JavaStrings.EqualsIgnoreCase | norconex-importer/src/main/java/com/norconex/importer/handler/tagger/impl/ForceSingleValueTagger.java:85-87 | two strings of the same length that agree at every position once ASCII letters are upper-cased |
| JavaStrings.StartsWithIgnoreCase | norconex-importer/src/main/java/com/norconex/importer/handler/tagger/impl/ForceSingleValueTagger.java:89-90 | the string is at least as long as the prefix, and its first characters equal the prefix ignoring case |
| JavaStrings.TrimStart | norconex-importer/src/main/java/com/norconex/importer/handler/tagger/impl/KeepOnlyTagger.java:115 | the result is a suffix; every character dropped is at most U+0020; the result does not start with one |
| JavaStrings.TrimEnd | norconex-importer/src/main/java/com/norconex/importer/handler/tagger/impl/KeepOnlyTagger.java:115 | the result is a prefix; every character dropped is at most U+0020; the result does not end with one |
| JavaStrings.Trim | norconex-importer/src/main/java/com/norconex/importer/handler/tagger/impl/KeepOnlyTagger.java:115 | the result is the input with only characters at or below U+0020 removed from both ends, and a non-empty result neither starts nor ends with one |
| JavaStrings.SubstringAfter | norconex-importer/src/main/java/com/norconex/importer/handler/tagger/impl/ForceSingleValueTagger.java:91 | what follows the first occurrence of the separator, or the empty string when it does not occur |
| JavaStrings.SubstringAfterAt | norconex-importer/src/main/java/com/norconex/importer/handler/tagger/impl/ForceSingleValueTagger.java:91 | when position i holds the first separator, the result is what follows i |
| JavaStrings.Join | norconex-importer/src/main/java/com/norconex/importer/handler/tagger/impl/ForceSingleValueTagger.java:92-94 | the values in order with the separator between each two neighbours; the empty string for no value |
| Metadata.ImporterMetadata.SetString | norconex-importer/src/main/java/com/norconex/importer/handler/tagger/impl/ForceSingleValueTagger.java:96 | the field's values become exactly the one given value; every other field is unchanged |
| Metadata.ImporterMetadata.Remove | norconex-importer/src/main/java/com/norconex/importer/handler/tagger/impl/KeepOnlyTagger.java:101 | the field is gone with all its values; every other field is unchanged |
| Metadata.ImporterMetadata.Clear | norconex-importer/src/main/java/com/norconex/importer/handler/tagger/impl/KeepOnlyTagger.java:87 | no field is left |
| ImporterHandler.Applicable | norconex-importer/src/main/java/com/norconex/importer/handler/AbstractImporterHandler.java:172-185 | the rule test of `isApplicable`: true for an empty list, otherwise true exactly when some rule matches the metadata |
| ImporterHandler.OnField | norconex-importer/src/main/java/com/norconex/importer/handler/AbstractImporterHandler.java:127-129 | a rule is on a field when its key equals the field, exactly for a case-sensitive rule and ignoring case otherwise |
| ImporterHandler.WithoutField | norconex-importer/src/main/java/com/norconex/importer/handler/AbstractImporterHandler.java:122-135 | the rules that are not on the field, in their original order |
| ImporterHandler.CountOnField | norconex-importer/src/main/java/com/norconex/importer/handler/AbstractImporterHandler.java:122-135 | how many rules are on the field |
| ImporterHandler.WithoutFieldAppend | norconex-importer/src/main/java/com/norconex/importer/handler/AbstractImporterHandler.java:122-135 | removal by field name distributes over concatenation |
| ImporterHandler.WithoutFieldSpec | norconex-importer/src/main/java/com/norconex/importer/handler/AbstractImporterHandler.java:122-135 | a rule survives iff it was present and is not on the field (exact key for case-sensitive rules, ignoring case otherwise); a list with no rule on the field is unchanged; the number removed equals the number of rules on the field |
| ImporterHandler.RemovalStep | norconex-importer/src/main/java/com/norconex/importer/handler/AbstractImporterHandler.java:125-133 | one iterator step: the next rule is dropped in place exactly when it is on the field, and the rest of the list is untouched |
| ImporterHandler.AddingKeepsApplicable | norconex-importer/src/main/java/com/norconex/importer/handler/AbstractImporterHandler.java:172-185 | appending rules to a non-empty list never makes an applicable handler stop applying |
| ImporterHandler.FirstRuleCanRevoke | norconex-importer/src/main/java/com/norconex/importer/handler/AbstractImporterHandler.java:174-176 | an unrestricted handler applies to everything, and adding one rule that does not match makes it not apply |
| ImporterHandler.RemovingOnlyMatchRevokes | norconex-importer/src/main/java/com/norconex/importer/handler/AbstractImporterHandler.java:143-145 | taking out, from a longer list, the only rule that matches makes the handler stop applying |
| ImporterHandler.DetectCharsetIfBlank | norconex-importer/src/main/java/com/norconex/importer/handler/AbstractImporterHandler.java:199-236 | UTF-8 for a parsed document; the cleaned charset when it is not blank; otherwise detection hinted with the first declared content encoding (none when the metadata is null): UTF-8 when nothing is found, the cleaned name when found, the cleaned UTF-8 name when detection fails; a null from cleaning is returned |
| ImporterHandler.DetectorConsultedOnlyWhenBlank | norconex-importer/src/main/java/com/norconex/importer/handler/AbstractImporterHandler.java:211-227 | the detector matters only for an unparsed document with a blank or null charset, and only through its answer for the declared encoding |
| ImporterHandler.CharsetNeverBlank | norconex-importer/src/main/java/com/norconex/importer/handler/AbstractImporterHandler.java:205-235 | the charset returned is never blank when cleaning never yields a blank name; it is null only for an unparsed document, and then cleaning returned null for the explicit charset when there is one, otherwise for the detected name, or for UTF-8 when detection failed |
| ImporterHandler.AbstractImporterHandler.constructor | norconex-importer/src/main/java/com/norconex/importer/handler/AbstractImporterHandler.java:75-79 | a new handler has no restriction |
| ImporterHandler.AbstractImporterHandler.AddRestriction | norconex-importer/src/main/java/com/norconex/importer/handler/AbstractImporterHandler.java:87-90 | the rule built from field, regex and flag is appended |
| ImporterHandler.AbstractImporterHandler.AddRestrictionMatchers | norconex-importer/src/main/java/com/norconex/importer/handler/AbstractImporterHandler.java:97-101 | the given rules are appended in order |
| ImporterHandler.AbstractImporterHandler.AddRestrictions | norconex-importer/src/main/java/com/norconex/importer/handler/AbstractImporterHandler.java:107-114 | the rules of the list are appended in order; a null list changes nothing |
| ImporterHandler.AbstractImporterHandler.RemoveRestrictionsOnField | norconex-importer/src/main/java/com/norconex/importer/handler/AbstractImporterHandler.java:122-135 | the in-place iterator removal leaves exactly the rules not on the field, in order, and returns how many were removed |
| ImporterHandler.AbstractImporterHandler.RemoveRestriction | norconex-importer/src/main/java/com/norconex/importer/handler/AbstractImporterHandler.java:143-145 | the result is true iff the rule was present; the first equal rule is removed |
| ImporterHandler.AbstractImporterHandler.ClearRestrictions | norconex-importer/src/main/java/com/norconex/importer/handler/AbstractImporterHandler.java:151-153 | no rule is left |
| ImporterHandler.AbstractImporterHandler.IsApplicable | norconex-importer/src/main/java/com/norconex/importer/handler/AbstractImporterHandler.java:172-185 | true on an empty list; otherwise true exactly when some rule matches |
| KeepOnly.MustKeep | norconex-importer/src/main/java/com/norconex/importer/handler/tagger/impl/KeepOnlyTagger.java:112-126 | a field is kept when some listed field equals its name once both are trimmed, ignoring case, or when the regex is not blank and matches the whole name |
| KeepOnly.KeepOnly | norconex-importer/src/main/java/com/norconex/importer/handler/tagger/impl/KeepOnlyTagger.java:76-110 | the metadata restricted to the fields that must be kept, each with its values |
| KeepOnly.NothingConfiguredKeepsNothing | norconex-importer/src/main/java/com/norconex/importer/handler/tagger/impl/KeepOnlyTagger.java:82-87 | with no field listed and a blank or null regex, every field is deleted whatever the regex matcher says |
| KeepOnly.KeepOnlySpec | norconex-importer/src/main/java/com/norconex/importer/handler/tagger/impl/KeepOnlyTagger.java:88-126 | no field is added; a field survives iff it must be kept (listed after trimming, ignoring case, or fully matched by a non-blank regex); a surviving field keeps its values |
| KeepOnly.KeepOnlyIdempotent | norconex-importer/src/main/java/com/norconex/importer/handler/tagger/impl/KeepOnlyTagger.java:76-110 | running the tagger twice is the same as running it once |
| KeepOnly.ListedFieldMatchesTrimmedIgnoringCase | norconex-importer/src/main/java/com/norconex/importer/handler/tagger/impl/KeepOnlyTagger.java:114-118 | a listed " Title " keeps the field "title" |
| KeepOnly.TrimPaddedTitle | norconex-importer/src/main/java/com/norconex/importer/handler/tagger/impl/KeepOnlyTagger.java:115 | trimming " Title " gives "Title" |
| KeepOnly.TrimBareTitle | norconex-importer/src/main/java/com/norconex/importer/handler/tagger/impl/KeepOnlyTagger.java:115 | trimming "title" leaves it unchanged |
| KeepOnly.TitleIgnoringCase | norconex-importer/src/main/java/com/norconex/importer/handler/tagger/impl/KeepOnlyTagger.java:115 | "Title" equals "title" ignoring case |
| KeepOnly.KeepOnlyTagger.constructor | norconex-importer/src/main/java/com/norconex/importer/handler/tagger/impl/KeepOnlyTagger.java:73-74 | a new tagger lists no field and has a null regex |
| KeepOnly.KeepOnlyTagger.AddField | norconex-importer/src/main/java/com/norconex/importer/handler/tagger/impl/KeepOnlyTagger.java:133-135 | the field is appended to the list |
| KeepOnly.KeepOnlyTagger.RemoveField | norconex-importer/src/main/java/com/norconex/importer/handler/tagger/impl/KeepOnlyTagger.java:136-138 | the first equal entry is removed from the list |
| KeepOnly.KeepOnlyTagger.SetFieldsRegex | norconex-importer/src/main/java/com/norconex/importer/handler/tagger/impl/KeepOnlyTagger.java:143-145 | the regex is replaced; the list is unchanged |
| KeepOnly.KeepOnlyTagger.TagApplicableDocument | norconex-importer/src/main/java/com/norconex/importer/handler/tagger/impl/KeepOnlyTagger.java:76-110 | the metadata becomes exactly the fields that must be kept, with their values, deleted one key at a time |
| ForceSingleValue.SingleValue | norconex-importer/src/main/java/com/norconex/importer/handler/tagger/impl/ForceSingleValueTagger.java:84-95 | the first value for keepFirst and the last for keepLast, both compared ignoring case; for an action starting with mergeWith (ignoring case), the values joined by what follows its first colon; for any other action, the values joined by a comma |
| ForceSingleValue.Collapses | norconex-importer/src/main/java/com/norconex/importer/handler/tagger/impl/ForceSingleValueTagger.java:82-83 | a field is rewritten only when it has at least one value and its action is not blank |
| ForceSingleValue.ForcedOn | norconex-importer/src/main/java/com/norconex/importer/handler/tagger/impl/ForceSingleValueTagger.java:79-97 | the metadata once some configured fields are processed: each of them that collapses holds the one value its action picks, and every other field is as it was |
| ForceSingleValue.ForceSingleValues | norconex-importer/src/main/java/com/norconex/importer/handler/tagger/impl/ForceSingleValueTagger.java:79-98 | the metadata once every configured field is processed |
| ForceSingleValue.ForceSingleValuesSpec | norconex-importer/src/main/java/com/norconex/importer/handler/tagger/impl/ForceSingleValueTagger.java:79-98 | no field is added or removed; a configured field with values and a non-blank action ends with exactly the one value its action picks; every other field keeps its values |
| ForceSingleValue.ForcedOnStep | norconex-importer/src/main/java/com/norconex/importer/handler/tagger/impl/ForceSingleValueTagger.java:79-97 | processing one configured field rewrites that field alone, and only when it has values and a non-blank action |
| ForceSingleValue.SingleValueOfOne | norconex-importer/src/main/java/com/norconex/importer/handler/tagger/impl/ForceSingleValueTagger.java:85-95 | every action leaves a single value unchanged |
| ForceSingleValue.ForceSingleValuesIdempotent | norconex-importer/src/main/java/com/norconex/importer/handler/tagger/impl/ForceSingleValueTagger.java:73-99 | running the tagger twice is the same as running it once |
| ForceSingleValue.KeepFirstExample | norconex-importer/src/main/java/com/norconex/importer/handler/tagger/impl/ForceSingleValueTagger.java:85-86 | keepFirst over Jane, John gives Jane |
| ForceSingleValue.KeepLastExample | norconex-importer/src/main/java/com/norconex/importer/handler/tagger/impl/ForceSingleValueTagger.java:87-88 | KEEPLAST gives John, because the action is compared ignoring case |
| ForceSingleValue.JoinTwo | norconex-importer/src/main/java/com/norconex/importer/handler/tagger/impl/ForceSingleValueTagger.java:92 | joining two values puts the separator between them |
| ForceSingleValue.MergeWithExample | norconex-importer/src/main/java/com/norconex/importer/handler/tagger/impl/ForceSingleValueTagger.java:89-92 | mergeWith:; gives Jane;John, the separator being what follows the first colon |
| ForceSingleValue.DefaultJoinExample | norconex-importer/src/main/java/com/norconex/importer/handler/tagger/impl/ForceSingleValueTagger.java:93-94 | any other non-blank action, such as merge, gives Jane,John |
| ForceSingleValue.ForceSingleValueTagger.constructor | norconex-importer/src/main/java/com/norconex/importer/handler/tagger/impl/ForceSingleValueTagger.java:70-71 | a new tagger has no configured field |
| ForceSingleValue.ForceSingleValueTagger.AddSingleValueField | norconex-importer/src/main/java/com/norconex/importer/handler/tagger/impl/ForceSingleValueTagger.java:105-109 | the field's action is set, replacing any earlier one; a null field or action changes nothing |
| ForceSingleValue.ForceSingleValueTagger.RemoveSingleValueField | norconex-importer/src/main/java/com/norconex/importer/handler/tagger/impl/ForceSingleValueTagger.java:110-112 | the field's configuration is removed |
| ForceSingleValue.ForceSingleValueTagger.TagApplicableDocument | norconex-importer/src/main/java/com/norconex/importer/handler/tagger/impl/ForceSingleValueTagger.java:73-99 | the metadata becomes the collapsed metadata that ForceSingleValuesSpec describes |
| StringTransformer.ToInt | norconex-importer/src/main/java/com/norconex/importer/handler/transformer/AbstractStringTransformer.java:107 | the Java long-to-int narrowing: the result is in the int range and congruent to its input modulo 2^32 |
| StringTransformer.IsTakingTooMuchMemoryAsWritten | norconex-importer/src/main/java/com/norconex/importer/handler/transformer/AbstractStringTransformer.java:106-109 | as written: twice the buffer length exceeds the free memory narrowed to `int` and then halved, rounding toward zero |
| StringTransformer.IsTakingTooMuchMemory | norconex-importer/src/main/java/com/norconex/importer/handler/transformer/AbstractStringTransformer.java:106-109 | as intended: twice the buffer length exceeds half the free memory, with no narrowing |
| StringTransformer.TooBig | norconex-importer/src/main/java/com/norconex/importer/handler/transformer/AbstractStringTransformer.java:87-88 | the memory check the driver makes, either the one as written or the intended one |
| StringTransformer.AsWrittenAgreesBelowTwoGiB | norconex-importer/src/main/java/com/norconex/importer/handler/transformer/AbstractStringTransformer.java:106-109 | below 2^31 bytes of free memory, the memory check as written and the intended check agree |
| StringTransformer.AsWrittenSplitsWithAmpleMemory | norconex-importer/src/main/java/com/norconex/importer/handler/transformer/AbstractStringTransformer.java:107 | with 2^31 or 2^32 bytes free, the check as written calls a 51200-character buffer too big; the intended check does not |
| StringTransformer.InitialCapacityAsWritten | norconex-importer/src/main/java/com/norconex/importer/handler/transformer/AbstractStringTransformer.java:80-82 | as written: a quarter of the free memory narrowed to `int`, which can be negative |
| StringTransformer.InitialCapacity | norconex-importer/src/main/java/com/norconex/importer/handler/transformer/AbstractStringTransformer.java:80-82 | the initial buffer capacity is a quarter of the free memory, capped at `Integer.MAX_VALUE` (standing for the VM's largest array length), never negative |
| StringTransformer.AsWrittenCapacityNegativeWithEightGiB | norconex-importer/src/main/java/com/norconex/importer/handler/transformer/AbstractStringTransformer.java:81-82 | with 2^33 bytes free, the capacity as written is negative; with 2^34 it is 0 |
| StringTransformer.AsWrittenCapacityAgreesBelowEightGiB | norconex-importer/src/main/java/com/norconex/importer/handler/transformer/AbstractStringTransformer.java:81-82 | below 2^33 bytes free, the capacity as written and the intended capacity agree |
| StringTransformer.AtCheck | norconex-importer/src/main/java/com/norconex/importer/handler/transformer/AbstractStringTransformer.java:87 | the memory check falls due when twice the buffer length is a multiple of 102400 |
| StringTransformer.Run | norconex-importer/src/main/java/com/norconex/importer/handler/transformer/AbstractStringTransformer.java:84-96 | the read loop from a point on: each character is appended; when the check falls due and finds the buffer too big, the buffer goes to a partial call and a new buffer starts; at the end of input a non-empty buffer goes to a final call |
| StringTransformer.ChunksWith | norconex-importer/src/main/java/com/norconex/importer/handler/transformer/AbstractStringTransformer.java:74-99 | the calls on a whole document, from an empty buffer, with the given memory check |
| StringTransformer.Chunks | norconex-importer/src/main/java/com/norconex/importer/handler/transformer/AbstractStringTransformer.java:74-99 | the calls on a whole document with the intended memory check |
| StringTransformer.ChunksAsWritten | norconex-importer/src/main/java/com/norconex/importer/handler/transformer/AbstractStringTransformer.java:80-99 | the calls as written: none at all (a failure) when the capacity as written is negative, otherwise the calls with the memory check as written |
| StringTransformer.Flatten | norconex-importer/src/main/java/com/norconex/importer/handler/transformer/AbstractStringTransformer.java:84-96 | the buffers handed over, concatenated in call order |
| StringTransformer.Written | norconex-importer/src/main/java/com/norconex/importer/handler/transformer/AbstractStringTransformer.java:89-95 | what the output receives: each call's rewritten buffer, in call order |
| StringTransformer.WrittenAppend | norconex-importer/src/main/java/com/norconex/importer/handler/transformer/AbstractStringTransformer.java:89-95 | one more call appends its rewritten buffer to what was written |
| StringTransformer.FlattenAppend | norconex-importer/src/main/java/com/norconex/importer/handler/transformer/AbstractStringTransformer.java:84-96 | the characters handed over distribute over concatenation of calls |
| StringTransformer.CallMade | norconex-importer/src/main/java/com/norconex/importer/handler/transformer/AbstractStringTransformer.java:89-90 | one more call extends the calls and the output |
| StringTransformer.TransformTextDocument | norconex-importer/src/main/java/com/norconex/importer/handler/transformer/AbstractStringTransformer.java:74-99 | the output is each call's rewritten buffer, in order, for exactly the calls that the read-check-flush loop makes with the corrected memory check and capacity |
| StringTransformer.RunFlatten | norconex-importer/src/main/java/com/norconex/importer/handler/transformer/AbstractStringTransformer.java:84-96 | from any point, the calls receive the buffer and then the unread input |
| StringTransformer.ChunksConcatenateToInput | norconex-importer/src/main/java/com/norconex/importer/handler/transformer/AbstractStringTransformer.java:84-96 | with either memory check, the buffers handed to the calls, concatenated, are the whole input: nothing is lost, duplicated or reordered |
| StringTransformer.WrittenIdentity | norconex-importer/src/main/java/com/norconex/importer/handler/transformer/AbstractStringTransformer.java:89-95 | with an identity transform, the output is the concatenated buffers |
| StringTransformer.IdentityRoundTrip | norconex-importer/src/main/java/com/norconex/importer/handler/transformer/AbstractStringTransformer.java:74-99 | with an identity transform and either memory check, the document comes out unchanged whatever the memory |
| StringTransformer.EmptyInputNoCall | norconex-importer/src/main/java/com/norconex/importer/handler/transformer/AbstractStringTransformer.java:93-96 | with either memory check, an empty document makes no call and writes nothing |
| StringTransformer.RunWellShaped | norconex-importer/src/main/java/com/norconex/importer/handler/transformer/AbstractStringTransformer.java:84-96 | from any point, every call has a non-empty buffer; partial calls are whole multiples of 51200 characters; a final call is last |
| StringTransformer.ChunksWellShaped | norconex-importer/src/main/java/com/norconex/importer/handler/transformer/AbstractStringTransformer.java:84-96 | with either memory check, every call has a non-empty buffer; every partial call is a whole multiple of 51200 characters; only the last call can be final |
| StringTransformer.ChecksHeldAt | norconex-importer/src/main/java/com/norconex/importer/handler/transformer/AbstractStringTransformer.java:87-89 | each partial call was preceded by a memory check, made after the characters handed over so far were read, that found the buffer too big |
| StringTransformer.RunChecked | norconex-importer/src/main/java/com/norconex/importer/handler/transformer/AbstractStringTransformer.java:87-91 | from any point, every partial call follows a check that found its buffer too big |
| StringTransformer.PartialOnlyWhenTooBig | norconex-importer/src/main/java/com/norconex/importer/handler/transformer/AbstractStringTransformer.java:87-91 | with either memory check, a partial call happens only when the check, made once the characters handed over so far were read, found the buffer too big |
| StringTransformer.ChecksPassedAt | norconex-importer/src/main/java/com/norconex/importer/handler/transformer/AbstractStringTransformer.java:86-91 | each memory check made on a call's buffer before it was handed over was made after the characters handed to the earlier calls plus the buffer's length, and passed |
| StringTransformer.RunPassed | norconex-importer/src/main/java/com/norconex/importer/handler/transformer/AbstractStringTransformer.java:84-96 | from any point where the buffer passed its own checks, every check made on each later call's buffer before it was handed over passed, and so did the check on the final call's last character |
| StringTransformer.SplitWheneverTooBig | norconex-importer/src/main/java/com/norconex/importer/handler/transformer/AbstractStringTransformer.java:84-96 | with either memory check, the converse of PartialOnlyWhenTooBig: every check that falls due (each 51200 characters of a buffer) and finds the buffer too big ends that call; checks inside a call's buffer, and at the final call's last character, passed |
| StringTransformer.RunWhole | norconex-importer/src/main/java/com/norconex/importer/handler/transformer/AbstractStringTransformer.java:84-96 | with at least four bytes free per remaining character, everything left goes to one final call |
| StringTransformer.AmpleMemoryOneCall | norconex-importer/src/main/java/com/norconex/importer/handler/transformer/AbstractStringTransformer.java:84-96 | with at least four bytes of free memory per character, the whole document goes to one final call |
| StringTransformer.AtCheckIff | norconex-importer/src/main/java/com/norconex/importer/handler/transformer/AbstractStringTransformer.java:87 | the check comes round exactly when the buffer length is a multiple of 51200 characters |
| StringTransformer.TooBigMonotone | norconex-importer/src/main/java/com/norconex/importer/handler/transformer/AbstractStringTransformer.java:106-109 | a longer buffer with less free memory is too big whenever a shorter one with more is |
| StringTransformer.NextResidue | norconex-importer/src/main/java/com/norconex/importer/handler/transformer/AbstractStringTransformer.java:86-87 | buffers with the same length modulo 51200 stay so after one more character |
| StringTransformer.RunCountMonotone | norconex-importer/src/main/java/com/norconex/importer/handler/transformer/AbstractStringTransformer.java:84-96 | from any point, less free memory never makes fewer calls |
| StringTransformer.ChunkCountMonotone | norconex-importer/src/main/java/com/norconex/importer/handler/transformer/AbstractStringTransformer.java:84-96 | less free memory never makes fewer calls: more memory never splits a document more |
| StringTransformer.RunAsWrittenAgrees | norconex-importer/src/main/java/com/norconex/importer/handler/transformer/AbstractStringTransformer.java:84-96 | from any point, with less than 2^31 bytes free at every check the loop as written makes the corrected loop's calls |
| StringTransformer.AsWrittenDriverAgreesBelowTwoGiB | norconex-importer/src/main/java/com/norconex/importer/handler/transformer/AbstractStringTransformer.java:74-99 | with less than 2^31 bytes free at every check, the driver as written starts and makes exactly the corrected driver's calls |
| StringTransformer.AsWrittenDriverLosesNothing | norconex-importer/src/main/java/com/norconex/importer/handler/transformer/AbstractStringTransformer.java:74-99 | whenever the driver as written starts, its calls together are the whole document, have the shape of WellShaped, and copy the document under an identity transform |
| StringTransformer.RunAsWrittenSplitsAtFourGiB | norconex-importer/src/main/java/com/norconex/importer/handler/transformer/AbstractStringTransformer.java:84-96 | with 2^32 bytes free and at least 51200 characters still to come in buffer and input, the loop as written hands the next 51200 characters over in a partial call and goes on with an empty buffer |
| StringTransformer.AsWrittenDriverSplitsWithFourGiB | norconex-importer/src/main/java/com/norconex/importer/handler/transformer/AbstractStringTransformer.java:74-99 | with 2^32 bytes free, a 51200-character document gets one partial call from the driver as written but one final call from the corrected driver |
| StringTransformer.AsWrittenMoreMemoryMoreCalls | norconex-importer/src/main/java/com/norconex/importer/handler/transformer/AbstractStringTransformer.java:107 | a 51201-character document gets one final call from the driver as written with 2^30 bytes free at every check but two calls, one partial, with 2^32 bytes free; the corrected driver makes one call both times |
| StringTransformer.AsWrittenDriverFailsWithEightGiB | norconex-importer/src/main/java/com/norconex/importer/handler/transformer/AbstractStringTransformer.java:81-82 | with 2^33 bytes free at the start, the driver as written fails before reading anything |
| StringTransformer.StringBuilder.constructor | norconex-importer/src/main/java/com/norconex/importer/handler/transformer/AbstractStringTransformer.java:81-82 | `new StringBuilder(capacity)` makes an empty buffer |
| StringTransformer.StringBuilder.Delete | norconex-importer/src/main/java/com/norconex/importer/handler/transformer/impl/StripBeforeTransformer.java:87-89 | `delete(start, end)` removes the characters in that range, an end past the length meaning the length |
| StringTransformer.StringBuilder.Append | norconex-importer/src/main/java/com/norconex/importer/handler/transformer/AbstractStringTransformer.java:86 | `append(ch)` adds the character at the end |
| StringTransformer.StringBuilder.SetLength | norconex-importer/src/main/java/com/norconex/importer/handler/transformer/AbstractStringTransformer.java:97 | `setLength(n)` cuts the buffer to n characters, or pads it with NUL characters |
| StringTransformer.FlushBuffer | norconex-importer/src/main/java/com/norconex/importer/handler/transformer/AbstractStringTransformer.java:90 | flushing writes the buffer after what was written and leaves the buffer empty |
| StripBefore.PatternFlags | norconex-importer/src/main/java/com/norconex/importer/handler/transformer/impl/StripBeforeTransformer.java:79-82 | DOTALL and UNICODE_CASE are always set, CASE_INSENSITIVE iff matching is not case sensitive, and no other flag |
| StripBefore.Strip | norconex-importer/src/main/java/com/norconex/importer/handler/transformer/impl/StripBeforeTransformer.java:75-91 | the result is a suffix of the content: unchanged with a null regex or no match, otherwise it starts at the match's start, or its end when inclusive |
| StripBefore.InclusiveStripsMore | norconex-importer/src/main/java/com/norconex/importer/handler/transformer/impl/StripBeforeTransformer.java:85-91 | the inclusive result is a suffix of the non-inclusive one |
| StripBefore.AsTransform | norconex-importer/src/main/java/com/norconex/importer/handler/transformer/impl/StripBeforeTransformer.java:71-92 | the strip as the driver's transform: the buffer stripped with the transformer's settings, whatever its partial flag |
| StripBefore.PartialContentIrrelevant | norconex-importer/src/main/java/com/norconex/importer/handler/transformer/impl/StripBeforeTransformer.java:71-92 | whether a chunk is partial makes no difference to what is stripped from it; this holds by the definition of the transform, and TransformStringContent, whose contract does not mention the flag, is what ties it to the source |
| StripBefore.WholeDocumentStrippedWithAmpleMemory | norconex-importer/src/main/java/com/norconex/importer/handler/transformer/impl/StripBeforeTransformer.java:71-92 | with ample free memory, the driver strips the whole document exactly as one strip of the entire input |
| StripBefore.StripBeforeTransformer.constructor | norconex-importer/src/main/java/com/norconex/importer/handler/transformer/impl/StripBeforeTransformer.java:67-69 | a new transformer is not inclusive, not case sensitive and has a null regex |
| StripBefore.StripBeforeTransformer.SetInclusive | norconex-importer/src/main/java/com/norconex/importer/handler/transformer/impl/StripBeforeTransformer.java:102-104 | sets the inclusive flag alone |
| StripBefore.StripBeforeTransformer.SetCaseSensitive | norconex-importer/src/main/java/com/norconex/importer/handler/transformer/impl/StripBeforeTransformer.java:112-114 | sets the case-sensitivity flag alone |
| StripBefore.StripBeforeTransformer.SetStripBeforeRegex | norconex-importer/src/main/java/com/norconex/importer/handler/transformer/impl/StripBeforeTransformer.java:119-121 | sets the regex alone |
| StripBefore.StripBeforeTransformer.TransformStringContent | norconex-importer/src/main/java/com/norconex/importer/handler/transformer/impl/StripBeforeTransformer.java:71-92 | the buffer is rewritten in place to exactly what Strip gives |

## Left out

- **XML and configuration.** XML loading and saving, `equals`, `hashCode` and `toString` hold no
  handler logic.
- **Logging.** The debug and warning logs have no effect on results.
- **Concurrency.** The methods are `synchronized`; the model is single-threaded.
- **Getter aliasing.** `getRestrictions` hands out the live list, and through it callers could
  mutate the rules. The model has no such alias.
- **Varargs null.** A null varargs array passed to `addRestriction(PropertyMatcher...)` would throw.
  The model takes a sequence, which is never null.
- **Rule equality.** `PropertyMatcher.equals` is not part of this model. Two rules are assumed
  equal exactly when their key, regex and case flag are, which is the equality of the
  `PropertyMatcher` datatype. `RemoveRestriction`, `Lists.RemoveFirstSpec` applied to rules and
  `RemovingOnlyMatchRevokes` rest on that assumption.
- **External code as parameters.** `PropertyMatcher.matches`, the regex engine,
  `CharsetUtil.detectCharset`, `CharsetUtils.clean` and `MemoryUtil.getFreeMemory` are given by the
  caller. Their own behaviour is not part of this model. `clean` may return null, as Tika's does
  for an unsupported name. The regex finder is assumed only to return a span within the content.
- **Invalid regular expressions.** An invalid expression makes `Pattern.compile`
  (`StripBeforeTransformer.java` line 83) and `Pattern.matches` (`KeepOnlyTagger.java` line 122) throw
  `PatternSyntaxException`. The model's regex parameters cannot fail, so it covers valid expressions only.
- ImporterHandler.AbstractImporterHandler.AddRestriction: the key is a non-null string. Java accepts
  `addRestriction(null, regex, caseSensitive)` (lines 87-90) and stores a rule with a null key. Every
  later `removeRestriction(String)` then throws a `NullPointerException` at line 127 or 129,
  whatever field it is given.
- ImporterHandler.AbstractImporterHandler.AddRestrictionMatchers: the rules are non-null. Java stores
  a null element of the varargs array (lines 97-101). `removeRestriction(String)` then throws a
  `NullPointerException` at line 127, and `isApplicable` throws one at line 178.
- ImporterHandler.AbstractImporterHandler.AddRestrictions: the rules in the list are non-null, as
  for `AddRestrictionMatchers`. A null element inside the list (lines 107-114) is stored and makes
  the same calls throw at lines 127 and 178.
- KeepOnly.KeepOnlyTagger.AddField: the field is a non-null string. Java accepts `addField(null)`
  (lines 133-135), and a tagger holding a null field then throws a `NullPointerException` at line 115.
- **The document stream.** The input stream passed to `detectCharsetIfBlank` is not modelled; its
  effect is folded into the `detect` parameter.
- **DOC_CONTENT_ENCODING.** The key `ImporterMetadata.DOC_CONTENT_ENCODING` is taken to be
  "document.contentEncoding". `ImporterMetadata` is not part of this model beyond the stand-in in
  `metadata.dfy`, whose keys compare exactly.
- **Flushing.** `BufferUtil.flushBuffer` is not part of this model. It is taken to write the buffer to
  the output and empty it.
- **Reader and Writer.** Their `IOException`s are not modelled: the model reads a sequence and
  returns one.
- **Transform state.** `transformStringContent` is a pure function of the buffer and its flag. A
  transformer that kept state across calls, or read the metadata, is not modelled.
- **Released buffer.** `b = null` at the end of the driver only releases the buffer.
- **The pipeline.** The pipeline that calls `isApplicable` before the taggers and transformers, and
  the subclasses that apply `detectCharsetIfBlank`, are not modelled.
- JavaStrings.ToUpper: case-insensitive comparison folds ASCII letters only. Java's `equalsIgnoreCase`
  and `startsWithIgnoreCase` also fold other Unicode letters. Every property above holds for the
  ASCII-only fold, and the worked examples use ASCII.
- StringTransformer.IsTakingTooMuchMemory: `b.length() * 2` is computed in `int`. It would overflow
  only for a buffer over 2^30 characters, and the model computes it without overflow.
- StringTransformer.TransformTextDocument: it models the corrected memory check and the corrected
  initial capacity, not the code as written at lines 81-82 and 107. The code as written is
  `ChunksAsWritten`. It makes the same calls below 2 GiB free (`AsWrittenDriverAgreesBelowTwoGiB`),
  splits where the corrected driver does not at 4 GiB (`AsWrittenDriverSplitsWithFourGiB`), makes
  more calls with more memory (`AsWrittenMoreMemoryMoreCalls`), and fails at 8 GiB
  (`AsWrittenDriverFailsWithEightGiB`). The concatenation, shape, identity and check lemmas take the
  memory check as a parameter and hold for both drivers (`AsWrittenDriverLosesNothing`). Only
  `RunWhole`, `AmpleMemoryOneCall`, `RunCountMonotone`, `ChunkCountMonotone` and
  `WholeDocumentStrippedWithAmpleMemory` are about the corrected driver alone.
- StringTransformer.TransformTextDocument: a character is a Dafny `char`, a Unicode scalar value.
  Java's `Reader.read`, `length` and `trim` count UTF-16 code units, and a character outside the
  Basic Multilingual Plane is two of them. For such text the model counts fewer characters, so the
  memory check comes round at different points (25600 emoji are 51200 Java characters). The model
  also cannot show a partial chunk that ends between the two halves of a surrogate pair. The same
  holds for the trimming, lengths and indices in JavaStrings.
- KeepOnly.KeepOnlyTagger.TagApplicableDocument: deleting keys while iterating over the key set is
  modelled as choosing the keys one at a time from a snapshot of the key set. The order in which
  `HashMap` visits them is not modelled, and the result does not depend on it.
- ForceSingleValue.ForceSingleValueTagger.TagApplicableDocument: the configured fields are also
  visited in an unmodelled order, and the result does not depend on it.

## Findings

| source | as written | input that shows it | evidently intended | confidence | as-written member | corrected member |
|---|---|---|---|---|---|---|
| norconex-importer/src/main/java/com/norconex/importer/handler/transformer/AbstractStringTransformer.java:107 | `(int) MemoryUtil.getFreeMemory() / 2` narrows the free memory to `int` before halving it | 2^31 bytes free narrows to a negative number, and 2^32 bytes free narrows to 0. Either way a 51200-character buffer is found too big at every check, so a document is split into 100 KiB chunks although memory is ample. A 51201-character document is handed over in one call with 2^30 bytes free at every check, but in two with 2^32 | a long comparison (or a free-memory value capped at `Integer.MAX_VALUE` before the cast): a buffer is too big only when it takes more than half the free memory, so more memory never means more splits | not executed | StringTransformer.AsWrittenMoreMemoryMoreCalls | StringTransformer.ChunkCountMonotone |
| norconex-importer/src/main/java/com/norconex/importer/handler/transformer/AbstractStringTransformer.java:81-82 | `new StringBuilder((int) (getFreeMemory() / 4))` narrows a quarter of the free memory to `int` | 2^33 bytes free gives -2^31, and the constructor throws `NegativeArraySizeException`. 2^34 bytes free gives a capacity of 0 | a capacity of a quarter of the free memory, capped below the largest array length the VM allows; the model takes `Integer.MAX_VALUE` as that cap | not executed | StringTransformer.AsWrittenDriverFailsWithEightGiB | StringTransformer.InitialCapacity |
