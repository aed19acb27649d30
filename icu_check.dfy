/** The two entry points of the ICU MessageFormat check
    (weblate/checks/icu.py:195-320): the syntax-only check of source strings
    and the source/target comparison. The parser is a parameter `parse`,
    called with the message and the class's `allow_tags` flag (False for
    the plain check, True for the variant with simple XML tags). */
module IcuCheck {
  import opened IcuAst
  import opened FourValue
  import opened Extraction
  import ExtractionProperties
  import opened Comparison

  /** What `check_format` returns: False, or the result dictionary. */
  datatype CheckOutcome = NoIssues | Issues(result: Result)

  /** The dictionary holding only the given syntax error. */
  function SyntaxOnly(err: ParseError): (r: Result)
    ensures r.Keys == {Syntax} && r[Syntax] == [SyntaxEntry(err)]
  {
    map[Syntax := [SyntaxEntry(err)]]
  }

  /** `check_source_unit`: a non-empty first source string that does not
      parse is reported. */
  function CheckSourceUnit(parse: (string, bool) -> ParseResult, allowTags: bool, source: seq<string>): (bad: bool)
    ensures bad <==> |source| > 0 && source[0] != "" && parse(source[0], allowTags).Failed?
  {
    if source == [] || source[0] == "" then false
    else parse(source[0], allowTags).Failed?
  }

  /** When the original can run the comparison without raising: both
      messages parse and every plural selector in them is non-empty. */
  predicate ComparableAsts(srcAst: seq<Node>, tgtAst: seq<Node>)
  {
    PluralSelectorsNonEmpty(srcAst) && PluralSelectorsNonEmpty(tgtAst)
  }

  /** `check_format(source, target, ignore_missing, unit)`; `unitIsSource`
      is `unit and unit.is_source`. `ignore_missing` is not read. */
  method CheckFormat(parse: (string, bool) -> ParseResult, allowTags: bool,
                     source: string, target: string, unitIsSource: bool)
    returns (outcome: CheckOutcome)
    requires source != "" && target != "" && !unitIsSource
             && parse(source, allowTags).Parsed? && parse(target, allowTags).Parsed?
             ==> ComparableAsts(parse(source, allowTags).ast, parse(target, allowTags).ast)
    // empty strings are never checked
    ensures source == "" || target == "" ==> outcome == NoIssues
    // on a source string only the source syntax is checked, as
    // check_source_unit does
    ensures source != "" && target != "" && unitIsSource ==>
              outcome == (if parse(source, allowTags).Failed?
                          then Issues(SyntaxOnly(parse(source, allowTags).err)) else NoIssues)
    ensures source != "" && target != "" && unitIsSource ==>
              (outcome.Issues? <==> CheckSourceUnit(parse, allowTags, [source]))
    // a target syntax error is the only thing reported
    ensures source != "" && target != "" && !unitIsSource && parse(target, allowTags).Failed? ==>
              outcome == Issues(SyntaxOnly(parse(target, allowTags).err))
    // a broken source accepts any well-formed target
    ensures source != "" && target != "" && !unitIsSource
            && parse(target, allowTags).Parsed? && parse(source, allowTags).Failed? ==>
              outcome == NoIssues
    // otherwise the outcome is the comparison of the two summaries
    ensures source != "" && target != "" && !unitIsSource
            && parse(source, allowTags).Parsed? && parse(target, allowTags).Parsed? ==>
              var rep := Report(Extract(parse(source, allowTags).ast), Extract(parse(target, allowTags).ast));
              outcome == (if rep == map[] then NoIssues else Issues(rep))
    // a reported dictionary is never empty and holds no empty list
    ensures outcome.Issues? ==> outcome.result != map[] && NonEmptyLists(outcome.result)
  {
    if target == "" || source == "" {
      return NoIssues;
    }
    var src := parse(source, allowTags);
    if unitIsSource {
      if src.Failed? {
        return Issues(SyntaxOnly(src.err));
      }
      return NoIssues;
    }
    var tgt := parse(target, allowTags);
    if tgt.Failed? {
      return Issues(SyntaxOnly(tgt.err));
    } else if src.Failed? {
      return NoIssues;
    }
    var srcVars := ExtractPlaceholders(src.ast);
    var tgtVars := ExtractPlaceholders(tgt.ast);
    var result := ComparePlaceholders(srcVars, tgtVars);
    if result != map[] {
      outcome := Issues(result);
    } else {
      outcome := NoIssues;
    }
  }

  /** Messages without tags are never reported for tag mismatches. */
  lemma TagFreeMessages(srcAst: seq<Node>, tgtAst: seq<Node>, c: Category)
    requires !ContainsTag(srcAst) && !ContainsTag(tgtAst)
    requires IsTagCategory(c)
    ensures c !in Report(Extract(srcAst), Extract(tgtAst))
  {
    var src, tgt := Extract(srcAst), Extract(tgtAst);
    forall k | k in src.entries ensures src.entries[k].isTag != T {
      ExtractionProperties.TagFreeSummary(srcAst, k);
    }
    forall k | k in tgt.entries ensures tgt.entries[k].isTag != T {
      ExtractionProperties.TagFreeSummary(tgtAst, k);
    }
    NoTagFindings(src, tgt, c);
    ReportKeys(src, tgt, c);
  }

  /** Reordering the placeholders of the target does not change which
      names are reported under which category (only their order). */
  lemma TargetOrderIrrelevant(srcAst: seq<Node>, a: seq<Node>, b: seq<Node>, c: Category, k: string)
    ensures k in FlaggedNames(c, Extract(srcAst), Extract(a + b))
        <==> k in FlaggedNames(c, Extract(srcAst), Extract(b + a))
  {
    ExtractionProperties.ExtractSwap(a, b);
    ExtractValid(a + b);
    ExtractValid(b + a);
    FlaggedIgnoresTargetOrder(c, Extract(srcAst), Extract(a + b), Extract(b + a), k);
  }

  /** Every list of the report follows the order in which its names first
      occur: in the source for `missing`, in the target otherwise. */
  lemma ReportInFirstOccurrenceOrder(srcAst: seq<Node>, tgtAst: seq<Node>, c: Category, i: nat, j: nat)
    requires i < j < |FlaggedNames(c, Extract(srcAst), Extract(tgtAst))|
    ensures ExtractionProperties.OccursBefore(FlaggedNames(c, Extract(srcAst), Extract(tgtAst))[i],
                                              FlaggedNames(c, Extract(srcAst), Extract(tgtAst))[j],
                                              ObsList(if c == Missing then srcAst else tgtAst))
  {
    var src, tgt := Extract(srcAst), Extract(tgtAst);
    var scanned := Scanned(c, src, tgt);
    FlaggedInOrder(c, src, tgt, scanned);
    var f := FlaggedNames(c, src, tgt);
    assert Precedes(f[i], f[j], scanned);
    var p, q :| 0 <= p < q < |scanned| && scanned[p] == f[i] && scanned[q] == f[j];
    ExtractionProperties.ExtractOrder(if c == Missing then srcAst else tgtAst, p, q);
  }
}
