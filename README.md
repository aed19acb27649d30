# Weblate's ICU MessageFormat check, modelled in Dafny

Weblate checks translations written in ICU MessageFormat with
`weblate/checks/icu.py`. A message is parsed into an AST. The AST contains
literal text, placeholders (`{count, plural, one {…} other {…}}`) and, in the
XML variant of the check, simple tags (`<bold>…</bold>`, `<br/>`).

The check works in two stages:

- `extractPlaceholders` walks the AST. It builds one summary record per
  placeholder name: the types seen, the formats seen, three four-valued flags
  (`is_number`, `is_tag`, `is_empty`), the selectors seen (`choices`) and the
  bad plural selectors among them.
- `check_format` compares the source's summary with the target's. It collects
  findings in a `defaultdict(list)` keyed by category: `syntax`, `extra`,
  `missing`, `wrong_type`, `no_other`, `bad_plural`, `should_be_tag`,
  `not_tag`, `tag_not_empty` and `tag_empty`. `check_source_unit` only checks
  that a source string parses.

The project has these modules:

- `FourValue` (`four_value.dfy`): the flag values None/True/False/0, Python
  truthiness and Python `==` on them, and `updateFourValue`.
- `IcuAst` (`icu_ast.dfy`): the AST the parser returns, the type constants,
  and `isBadPluralSelector`.
- `Extraction` (`extraction.dfy`): `extractPlaceholders` as methods, with
  the same recursion, `setdefault` and `for` loops as the original.
  - The methods are specified by a fold. `ObsList` lists the walk's
    observations in visiting order; `Step` applies one; `Extract` folds
    `Step` over all of them.
  - The dictionary is a map plus its keys in insertion order, which is a
    Python dict's iteration order.
- `ExtractionProperties` (`extraction_properties.dfy`) states what the
  summary means without reference to the walk:
  - every record is a function of the set of observations for its name;
  - the keys are exactly the placeholder names of the tree;
  - the order is first-occurrence order;
  - the facts about bad plural selectors and tags.
- `Comparison` (`comparison.dfy`): the two loops of `check_format` as
  methods over the `result` map. They are proved equal to `Report`, a
  declarative statement of which names each category reports, in which order
  and how each name is printed. The properties of each category are proved
  from `Report`.
- `IcuCheck` (`icu_check.dfy`): `check_source_unit` and `check_format`,
  including the error flow. The parser is a function parameter.
- `IcuCheckExamples` (`icu_check_examples.dfy`): the messages of the
  repository's tests, written as ASTs, with the report the model gives for
  each. Each scenario is proved for arbitrary placeholder names.

Where the code and the tests disagree, the model follows the code.

- A name is printed as `<name>` whenever the record used for printing has
  `is_tag` True (icu.py:258, 315). So the XML tests at
  weblate/checks/tests/test_icu_checks.py:146 and 160-162, which expect bare
  tag names, do not match the code. `TagVersusPlaceholderExample` and
  `IncorrectlyFullTagsExample` state what the code produces.
- Python's `0 == False` is honoured where the code compares flags with `!=`
  (icu.py:279, 297, and 118 inside `updateFourValue`).
- Nothing in the comparison depends on `allow_tags`. The flag only reaches
  the parser.

## Model

| member | source | states |
|---|---|---|
| FourValue.UpdateFourValue | weblate/checks/icu.py:104-120 | an unset flag takes the new boolean; a flag equal to it is kept; any other flag becomes conflict (0); the result is never unset |
| FourValue.ConflictAbsorbs | weblate/checks/icu.py:116-120 | once a flag is in conflict it stays in conflict for either boolean |
| FourValue.Summarize | weblate/checks/icu.py:104-120 | the meaning of the four values: unset iff nothing observed, True or False iff only that value observed, conflict iff both observed |
| FourValue.UpdateSummarize | weblate/checks/icu.py:104-120 | one merge adds exactly one observation to the set the flag summarizes |
| FourValue.MergeAllSummarizes | weblate/checks/icu.py:104-120 | merging a sequence of booleans from unset yields the summary of the set of booleans in it |
| FourValue.MergeOrderIndependent | weblate/checks/icu.py:104-120 | two sequences with the same elements merge to the same flag, whatever their order and repetition |
| IcuAst.IsBadPluralSelector | weblate/checks/icu.py:98-101 | a non-empty selector is bad iff it is none of zero/one/two/few/many/other and does not start with `=` |
| IcuAst.PluralSelectorExamples | weblate/checks/tests/test_icu_checks.py:92-108 | the selectors of the good-plural test are all good, and `bad` is bad |
| Extraction.SetDefault | weblate/checks/icu.py:147-154 | an existing name keeps its record and the dictionary is unchanged; a new name gets a fresh record (no types, no formats, flags unset, no choices) and is appended to the insertion order |
| Extraction.Observe | weblate/checks/icu.py:156-169 | a truthy type is added to `types` and a given format to `formats`; `is_number` and `is_tag` merge one observation with `updateFourValue` and are set afterwards; `is_empty` merges the emptiness only for a tag; the choices are untouched |
| Extraction.AddChoice | weblate/checks/icu.py:175-183 | the selector is added to `choices`; it is added to `bad_plural` exactly when the type is plural or selectordinal and the selector is bad, and nothing else is added there; types, formats and flags are untouched |
| Extraction.StepAll | weblate/checks/icu.py:123-192 | the keys after the walk are the keys before it plus every name observed, and the old order is a prefix of the new |
| Extraction.StepAllValid | weblate/checks/icu.py:147-154 | the walk keeps the dictionary invariant: each key is listed once in order, and each record carries its own key |
| Extraction.ExtractValid | weblate/checks/icu.py:123-192 | the summary of any AST satisfies the dictionary invariant |
| Extraction.ExtractList | weblate/checks/icu.py:132-138 | the loop over a list of tokens computes the fold of the list's observations onto the given dictionary |
| Extraction.ExtractNode | weblate/checks/icu.py:128-192 | one token: strings and nameless nodes change nothing; a named node goes through setdefault, its type, its options and its contents, in that order, computing the fold of its observations |
| Extraction.ObserveType | weblate/checks/icu.py:156-169 | the updates of types, is_number, is_tag, is_empty (tags only) and formats equal one typed step |
| Extraction.RecordSelector | weblate/checks/icu.py:176-183 | logging a selector, and recording it as bad for a plural type, equals one selector step |
| Extraction.ExtractOptions | weblate/checks/icu.py:171-186 | the loop over the options computes the fold of the selector and sub-message observations |
| Extraction.ExtractPlaceholders | weblate/checks/icu.py:123-192 | the walk from a fresh dictionary returns exactly `Extract(ast)`, which satisfies the dictionary invariant |
| ExtractionProperties.StepCharacterized | weblate/checks/icu.py:145-186 | one step turns a dictionary that summarizes a set of observations into one that summarizes that set plus the new observation |
| ExtractionProperties.ExtractCharacterized | weblate/checks/icu.py:123-192 | the keys are the names observed; each record holds exactly the types and formats seen for its name, each flag is the merge of that name's observations, and the record holds its choices and bad selectors |
| ExtractionProperties.ExtractDeterminedByOccurrences | weblate/checks/icu.py:123-192 | two ASTs whose walks make the same set of observations have the same records |
| ExtractionProperties.ExtractSwap | weblate/checks/icu.py:132-138 | swapping two fragments of a message changes no record, only the order |
| ExtractionProperties.ExtractRepeat | weblate/checks/icu.py:132-138 | repeating a fragment changes no record |
| ExtractionProperties.InertNodesIgnored | weblate/checks/icu.py:128-143 | a literal or a nameless node adds nothing anywhere in a list, the order included |
| ExtractionProperties.ExtractKeys | weblate/checks/icu.py:123-192 | a name is a key iff it names a placeholder reachable through lists, option sub-messages and tag contents |
| ExtractionProperties.ExtractOrder | weblate/checks/icu.py:147 | the summary's order is first-occurrence order: the earlier key occurs in the walk before any occurrence of the later key |
| ExtractionProperties.BadPluralSound | weblate/checks/icu.py:177-183 | each recorded bad selector is one of the name's choices, is bad by `isBadPluralSelector`, and came from a plural or selectordinal occurrence of that name |
| ExtractionProperties.BadPluralComplete | weblate/checks/icu.py:181-183 | every bad selector of a plural or selectordinal occurrence is recorded |
| ExtractionProperties.TagFreeSummary | weblate/checks/icu.py:156-166 | in an AST without tags no record has `is_tag` True, and every `is_empty` stays unset |
| Comparison.Append | weblate/checks/icu.py:225 | appending to the defaultdict adds the key and extends that key's list by one element; every other list is unchanged |
| Comparison.PrintName | weblate/checks/icu.py:258 | the printed name is `<name>` iff the record's `is_tag` is True |
| Comparison.TagRule | weblate/checks/icu.py:291-304 | the rule for a name on both sides yields at most one category, and it is a tag category |
| Comparison.ReportUnique | weblate/checks/icu.py:225 | a defaultdict with exactly the findings as its lists and no empty list is the report |
| Comparison.CheckChoices | weblate/checks/icu.py:262-269 | `no_other` and `bad_plural` gain exactly the target name's entries, and no printed list is empty |
| Comparison.CheckWrongType | weblate/checks/icu.py:276-286 | `wrong_type` gains exactly one entry, the printed target name, when the rule holds (Python `!=` on a boolean source `is_number`, otherwise a target type the source lacks) and none otherwise; every other list is unchanged |
| Comparison.CheckTag | weblate/checks/icu.py:288-304 | each tag category gains exactly the name's entry under the tag rule; the other lists are unchanged |
| Comparison.CheckSharedName | weblate/checks/icu.py:271-304 | for a name the source also has, `wrong_type` and each tag category gain exactly what the name adds; `no_other` and `bad_plural` are unchanged |
| Comparison.CheckTargetName | weblate/checks/icu.py:257-309 | one target name extends every category by exactly what it adds, and `extra` when the source lacks the name |
| Comparison.CheckTargetNames | weblate/checks/icu.py:256-309 | after the target loop, every category but `missing` holds its findings, `missing` is absent, and no list is empty |
| Comparison.CheckSourceName | weblate/checks/icu.py:313-316 | a source name absent from the target adds one `missing` entry printed with the source's `is_tag`; nothing else changes |
| Comparison.CheckSourceNames | weblate/checks/icu.py:311-316 | the source loop completes the report by adding the `missing` list |
| Comparison.ComparePlaceholders | weblate/checks/icu.py:256-316 | both loops together build exactly `Report(src, tgt)` |
| Comparison.FlaggedMembership | weblate/checks/icu.py:257-316 | a name is reported under a category iff the loop visits it and that category's rule fires for it |
| Comparison.FlaggedInOrder | weblate/checks/icu.py:257-316 | the reported names keep the order of the loop that visits them |
| Comparison.ReportedOnce | weblate/checks/icu.py:257-316 | no category reports a name twice (in particular `wrong_type`, thanks to the `break`) |
| Comparison.FindingsShape | weblate/checks/icu.py:257-316 | each list is one printed entry per reported name, in the same order |
| Comparison.SelfComparison | weblate/checks/icu.py:257-316 | comparing a summary with itself can report only `no_other` and `bad_plural` |
| Comparison.FlaggedIgnoresTargetOrder | weblate/checks/icu.py:257 | which names are reported depends on the target's records, not on their order |
| Comparison.ExtraExactly | weblate/checks/icu.py:271-309 | `extra` reports exactly the target names absent from the source |
| Comparison.MissingExactly | weblate/checks/icu.py:313-316 | `missing` reports exactly the source names absent from the target |
| Comparison.ExtraMissingDisjoint | weblate/checks/icu.py:271-316 | no name is both extra and missing |
| Comparison.WrongTypeExactly | weblate/checks/icu.py:278-286 | with a boolean source `is_number`, a name is a wrong type iff Python `!=` holds against the target's flag; otherwise iff the target has a type the source lacks |
| Comparison.FalseMatchesConflict | weblate/checks/icu.py:279 | a source `False` against a target conflict (0) is not a wrong type, since `0 == False` |
| Comparison.NoOtherExactly | weblate/checks/icu.py:262-264 | `no_other` reports exactly the target names with choices but no `other` |
| Comparison.BadPluralExactly | weblate/checks/icu.py:266-269 | `bad_plural` reports exactly the target names with a bad selector |
| Comparison.TagCategoriesExclusive | weblate/checks/icu.py:291-304 | at most one of the four tag categories reports a given name |
| Comparison.NoTagFindings | weblate/checks/icu.py:291-304 | when neither side has a record with `is_tag` True, no tag category reports anything |
| Comparison.ReportKeys | weblate/checks/icu.py:318-320 | a category is a key of the report iff it reports some name, and its list is then non-empty |
| Comparison.NoSyntaxFindings | weblate/checks/icu.py:256-316 | the comparison never reports under `syntax` |
| IcuCheck.CheckSourceUnit | weblate/checks/icu.py:206-214 | a source unit is bad iff its first string exists, is non-empty and fails to parse |
| IcuCheck.CheckFormat | weblate/checks/icu.py:216-320 | empty strings give False; a source unit gives a syntax-only result or False, the same verdict as `check_source_unit`; a target error gives exactly `{syntax: [error]}`; a source error with a valid target gives False; otherwise the result is the report, or False when it is empty; every dict returned is non-empty with non-empty lists |
| IcuCheck.TagFreeMessages | weblate/checks/icu.py:288-304 | if neither AST contains a tag node, no tag category is reported |
| IcuCheck.TargetOrderIrrelevant | weblate/checks/icu.py:257 | reordering two fragments of the target changes no reported name, only the order of the lists |
| IcuCheck.ReportInFirstOccurrenceOrder | weblate/checks/icu.py:257-316 | every list is in first-occurrence order: of the source for `missing`, of the target otherwise |
| IcuCheckExamples.PlainExample | weblate/checks/tests/test_icu_checks.py:29-30 | two messages without placeholders give an empty report |
| IcuCheckExamples.NoFormatsExample | weblate/checks/tests/test_icu_checks.py:32-42 | the same untyped placeholder in differently worded messages gives an empty report |
| IcuCheckExamples.WrongTypeExample | weblate/checks/tests/test_icu_checks.py:66-71 | a currency number against an untyped placeholder gives exactly `{wrong_type: [value]}` |
| IcuCheckExamples.TypesExample | weblate/checks/tests/test_icu_checks.py:56-64 | the same typed placeholder on both sides gives an empty report |
| IcuCheckExamples.MissingExample | weblate/checks/tests/test_icu_checks.py:44-47 | a placeholder dropped from the target gives exactly `{missing: [name]}` |
| IcuCheckExamples.ExtraExample | weblate/checks/tests/test_icu_checks.py:49-54 | a placeholder added in the target gives exactly `{extra: [lastName]}` |
| IcuCheckExamples.NoOtherExample | weblate/checks/tests/test_icu_checks.py:85-90 | a plural with only `one` gives exactly `{no_other: [count]}` |
| IcuCheckExamples.BadPluralExample | weblate/checks/tests/test_icu_checks.py:92-97 | a plural with selector `bad` gives exactly `{bad_plural: [[count, {bad}]]}` |
| IcuCheckExamples.EmptyTagsExample | weblate/checks/tests/test_icu_checks.py:135-138 | an empty tag used twice, both times empty, gives an empty report |
| IcuCheckExamples.IncorrectlyFullTagsExample | weblate/checks/tests/test_icu_checks.py:140-147 | swapping the contents of two tags gives exactly `{tag_empty: [<full>], tag_not_empty: [<empty>]}`, with the names in angle brackets as the code prints them |
| IcuCheckExamples.TagVersusPlaceholderExample | weblate/checks/tests/test_icu_checks.py:149-164 | a tag turned into a placeholder, and a placeholder turned into a tag, give exactly `{wrong_type: [bold, <firstName>], should_be_tag: [bold], not_tag: [<firstName>]}` |

## Left out

- Parsing (icu.py:23, 64-95). The `pyicumessageformat` grammar and its options
  belong to a library that is not part of this model. `parseICU` is the
  parameter `parse`, taking the message and `allow_tags` and returning an AST
  or an error. The third `tokens` result is not modelled because the core does
  not use it.
- `check_highlight` (icu.py:323-325) returns `[]` and has no logic. The
  highlight tests expect spans this code cannot produce.
- `format_result` (icu.py:328-377): gettext messages and string formatting.
- The `formats` set is collected but never compared, so it is kept as inert
  data.
- The Django plumbing: `BaseFormatCheck`, `check_id`, `name`, and the unit
  object except its `is_source` flag. `ignore_missing` is not read by the code
  and is not a parameter.
- `weblate/trans/migrations/0137_alter_project_language_aliases.py` is not part
  of this model. It is a schema migration with no logic.
- IcuAst.IsBadPluralSelector: requires a non-empty selector. On `""` the
  original raises IndexError at `selector[0]`; the parser does not produce one.
- Extraction.ExtractPlaceholders: requires (through `PluralSelectorsNonEmpty`)
  that every plural or selectordinal selector the walk visits is non-empty,
  for the same reason. IcuCheck.CheckFormat has that requirement only when the
  comparison is reached.
- The tag type is the constructor `TagSentinel`. The original uses the integer
  -100 and tests it with `is`; this model does not capture object identity.
- `options` is a sequence of selector/sub-message pairs. The parser's dict
  cannot repeat a selector, but the sequence can; everything proved holds
  either way.
- Python sets and dicts are modelled by Dafny sets and by a map with an
  insertion-order sequence. The order in which `check_format`'s defaultdict
  gains its keys is not modelled, because a result is compared as a
  dictionary.
- Comparison.CheckWrongType: the loop over the target types (icu.py:283-286)
  is a set difference followed by a choice; the order in which a Python set
  iterates is not modelled, and does not affect the result.
- IcuCheckExamples: `test_plural_types` and `test_good_plural` are not written
  out as ASTs, because their messages have up to nine sub-messages.
  `PluralSelectorExamples` covers the selectors of `test_good_plural`.
  `test_whitespace` relies on the parser trimming the whitespace around
  `name`; once trimmed, its messages are those of `NoFormatsExample`.
