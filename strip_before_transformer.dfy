/** The transformer that strips the content found before the first match of a regular
    expression, or through the end of that match when it is inclusive. */
module StripBefore {
  import opened Wrappers
  import StringTransformer

  /** `Pattern.DOTALL`, `Pattern.UNICODE_CASE` and `Pattern.CASE_INSENSITIVE`. */
  const DOTALL: bv32 := 0x20
  const UNICODE_CASE: bv32 := 0x40
  const CASE_INSENSITIVE: bv32 := 0x02

  /** A compiled `java.util.regex.Pattern`: its expression and its flags. */
  datatype Pattern = Pattern(regex: string, flags: bv32)

  /** The span of a regex match: `content[start..end]`. */
  datatype Match = Match(start: nat, end: nat)

  /** Whether `m` is a span that lies within `content`. */
  predicate WithinContent(m: Option<Match>, content: string) {
    m.Some? ==> m.value.start <= m.value.end <= |content|
  }

  /** `pattern.matcher(content).find()` on a fresh matcher: the leftmost match, or none. The
      regex engine is given by the caller; all that is assumed of it is that a match lies
      within the content. */
  type Finder = find: (Pattern, string) -> Option<Match> | forall p, s :: WithinContent(find(p, s), s)
    witness (p: Pattern, s: string) => None

  /** The flags `StripBeforeTransformer` compiles its expression with: always `DOTALL` and
      `UNICODE_CASE`, and `CASE_INSENSITIVE` exactly when matching is not case sensitive. */
  function PatternFlags(caseSensitive: bool): (flags: bv32)
    ensures flags & DOTALL != 0 && flags & UNICODE_CASE != 0
    ensures flags & CASE_INSENSITIVE != 0 <==> !caseSensitive
    ensures flags & !(DOTALL | UNICODE_CASE | CASE_INSENSITIVE) == 0
  {
    var flags := DOTALL | UNICODE_CASE;
    if caseSensitive then flags else flags | CASE_INSENSITIVE
  }

  /** The content once stripped: unchanged without an expression or without a match; otherwise
      what follows the start of the first match, or its end when `inclusive`. */
  function Strip(stripBeforeRegex: Option<string>, inclusive: bool, caseSensitive: bool,
                 content: string, find: Finder): (r: string)
    ensures |r| <= |content| && r == content[|content| - |r|..]
    ensures stripBeforeRegex.None? ==> r == content
    ensures stripBeforeRegex.Some? ==>
              var m := find(Pattern(stripBeforeRegex.value, PatternFlags(caseSensitive)), content);
              r == if m.None? then content else if inclusive then content[m.value.end..] else content[m.value.start..]
  {
    if stripBeforeRegex.None? then content
    else
      var m := find(Pattern(stripBeforeRegex.value, PatternFlags(caseSensitive)), content);
      assert WithinContent(m, content);
      if m.None? then content
      else if inclusive then content[m.value.end..]
      else content[m.value.start..]
  }

  /** Stripping through the end of the match keeps no more than stripping up to its start:
      the inclusive result is a suffix of the non-inclusive one. */
  lemma InclusiveStripsMore(stripBeforeRegex: Option<string>, caseSensitive: bool, content: string, find: Finder)
    ensures var kept := Strip(stripBeforeRegex, false, caseSensitive, content, find);
            var less := Strip(stripBeforeRegex, true, caseSensitive, content, find);
            |less| <= |kept| && less == kept[|kept| - |less|..]
  {
    if stripBeforeRegex.Some? {
      var m := find(Pattern(stripBeforeRegex.value, PatternFlags(caseSensitive)), content);
      assert WithinContent(m, content);
      if m.Some? {
        var kept := content[m.value.start..];
        assert content[m.value.end..] == kept[m.value.end - m.value.start..];
      }
    }
  }

  /** The stripping as a string transform for the driver; it ignores `partialContent`. */
  function AsTransform(stripBeforeRegex: Option<string>, inclusive: bool, caseSensitive: bool, find: Finder)
    : StringTransformer.Transform
  {
    (content: seq<char>, partialContent: bool) => Strip(stripBeforeRegex, inclusive, caseSensitive, content, find)
  }

  /** Whether a chunk is partial makes no difference to what is stripped from it. This holds by
      the definition of `AsTransform`; that the definition is right is `TransformStringContent`'s
      contract, which does not mention `partialContent`. */
  lemma PartialContentIrrelevant(stripBeforeRegex: Option<string>, inclusive: bool, caseSensitive: bool,
                                 find: Finder, content: string)
    ensures AsTransform(stripBeforeRegex, inclusive, caseSensitive, find)(content, true) ==
            AsTransform(stripBeforeRegex, inclusive, caseSensitive, find)(content, false)
  {
  }

  /** A document without enough free memory to need chunking is stripped as a whole: the
      driver's output is the strip of the entire input. */
  lemma WholeDocumentStrippedWithAmpleMemory(stripBeforeRegex: Option<string>, inclusive: bool, caseSensitive: bool,
                                             find: Finder, input: string, freeMemory: StringTransformer.FreeMemory)
    requires forall n :: 4 * |input| <= freeMemory(n)
    ensures StringTransformer.Written(StringTransformer.Chunks(input, freeMemory),
                                      AsTransform(stripBeforeRegex, inclusive, caseSensitive, find))
            == Strip(stripBeforeRegex, inclusive, caseSensitive, input, find)
  {
    var t := AsTransform(stripBeforeRegex, inclusive, caseSensitive, find);
    if |input| > 0 {
      StringTransformer.AmpleMemoryOneCall(input, freeMemory);
      var chunks := StringTransformer.Chunks(input, freeMemory);
      assert StringTransformer.Written(chunks, t) == t(input, false) + StringTransformer.Written(chunks[1..], t);
    } else {
      StringTransformer.EmptyInputNoCall(freeMemory, StringTransformer.Intended, t);
    }
  }

  class StripBeforeTransformer {
    var inclusive: bool
    var caseSensitive: bool
    var stripBeforeRegex: Option<string>

    constructor ()
      ensures !inclusive && !caseSensitive && stripBeforeRegex == None
    {
      inclusive, caseSensitive, stripBeforeRegex := false, false, None;
    }

    method SetInclusive(inclusive': bool)
      modifies this
      ensures inclusive == inclusive' && caseSensitive == old(caseSensitive) && stripBeforeRegex == old(stripBeforeRegex)
    {
      inclusive := inclusive';
    }

    method SetCaseSensitive(caseSensitive': bool)
      modifies this
      ensures caseSensitive == caseSensitive' && inclusive == old(inclusive) && stripBeforeRegex == old(stripBeforeRegex)
    {
      caseSensitive := caseSensitive';
    }

    method SetStripBeforeRegex(regex: Option<string>)
      modifies this
      ensures stripBeforeRegex == regex && inclusive == old(inclusive) && caseSensitive == old(caseSensitive)
    {
      stripBeforeRegex := regex;
    }

    /** `transformStringContent`: deletes, in place, the part of `content` before the first
        match (through its end when inclusive); without an expression it does nothing. */
    method TransformStringContent(reference: string, content: StringTransformer.StringBuilder, parsed: bool, partialContent: bool,
                                  find: Finder)
      modifies content
      ensures content.chars == Strip(stripBeforeRegex, inclusive, caseSensitive, old(content.chars), find)
    {
      if stripBeforeRegex.None? {
        return;
      }
      var flags := DOTALL | UNICODE_CASE;
      if !caseSensitive {
        flags := flags | CASE_INSENSITIVE;
      }
      var pattern := Pattern(stripBeforeRegex.value, flags);
      var m := find(pattern, content.chars);
      assert WithinContent(m, content.chars);
      if m.Some? {
        if inclusive {
          content.Delete(0, m.value.end);
        } else {
          content.Delete(0, m.value.start);
        }
      }
    }
  }
}
