/** The messages of weblate/checks/tests/test_icu_checks.py, written as the
    trees the parser returns for them, and what the comparison reports for
    them. Each scenario is stated for any placeholder names; the test's
    message is the instance with the test's names (`value`, `name`, `count`,
    `bold` and `firstName`, `empty` and `full`). */
module IcuCheckExamples {
  import opened IcuAst
  import opened FourValue
  import opened Extraction
  import opened Comparison
  import ExtractionProperties

  function Placeholder(name: string, ttype: Option<TType>, format: Option<string>): Node
  {
    Ph(Some(name), ttype, format, NoOptions, NoContents)
  }

  function TagNode(name: string, contents: Contents): Node
  {
    Ph(Some(name), Some(TagSentinel), None, NoOptions, contents)
  }

  /** A dictionary with one name. */
  function Single(d: Info): Vars
  {
    Vars(map[d.name := d], [d.name])
  }

  /** A dictionary with two names, in this order. */
  function Pair(d1: Info, d2: Info): Vars
  {
    Vars(map[d1.name := d1, d2.name := d2], [d1.name, d2.name])
  }

  /** What one observation does to the record of its own name. */
  function Applied(d: Info, o: Obs): Info
  {
    match o
    case Seen(_) => d
    case Typed(_, t, format, empty) => Observe(d, t, format, empty)
    case Choice(_, ttype, selector) => AddChoice(d, ttype, selector)
  }

  // Observation lists of short messages.

  lemma ObsOne(n: Node)
    ensures ObsList([n]) == ObsNode(n)
  {
    assert [n][..0] == [];
  }

  lemma ObsCons(n: Node, rest: seq<Node>)
    ensures ObsList([n] + rest) == ObsNode(n) + ObsList(rest)
  {
    ExtractionProperties.ObsListAppend([n], rest);
    ObsOne(n);
  }

  // Folding short observation lists.

  lemma StepSnoc(vs: Vars, obs: seq<Obs>, o: Obs)
    ensures StepAll(vs, obs + [o]) == Step(StepAll(vs, obs), o)
  {
    assert (obs + [o])[..|obs|] == obs;
  }

  lemma StepTwo(o1: Obs, o2: Obs)
    ensures StepAll(NoVars, [o1, o2]) == Step(Step(NoVars, o1), o2)
  {
    StepAllSingle(NoVars, o1);
    StepSnoc(NoVars, [o1], o2);
    assert [o1] + [o2] == [o1, o2];
  }

  lemma StepThree(o1: Obs, o2: Obs, o3: Obs)
    ensures StepAll(NoVars, [o1, o2, o3]) == Step(Step(Step(NoVars, o1), o2), o3)
  {
    StepTwo(o1, o2);
    StepSnoc(NoVars, [o1, o2], o3);
    assert [o1, o2] + [o3] == [o1, o2, o3];
  }

  lemma StepFour(o1: Obs, o2: Obs, o3: Obs, o4: Obs)
    ensures StepAll(NoVars, [o1, o2, o3, o4]) == Step(Step(Step(Step(NoVars, o1), o2), o3), o4)
  {
    StepThree(o1, o2, o3);
    StepSnoc(NoVars, [o1, o2, o3], o4);
    assert [o1, o2, o3] + [o4] == [o1, o2, o3, o4];
  }

  lemma StepFirst(k: string)
    ensures Step(NoVars, Seen(k)) == Single(FreshInfo(k))
  {
  }

  lemma StepSingle(d: Info, o: Obs)
    requires o.name == d.name
    ensures Step(Single(d), o) == Single(Applied(d, o))
  {
  }

  lemma StepSeenNew(d: Info, k: string)
    requires k != d.name
    ensures Step(Single(d), Seen(k)) == Pair(d, FreshInfo(k))
  {
  }

  lemma StepSecond(d1: Info, d2: Info, o: Obs)
    requires o.name == d2.name && d1.name != d2.name
    ensures Step(Pair(d1, d2), o) == Pair(d1, Applied(d2, o))
  {
    assert Pair(d1, d2).entries[d2.name] == d2;
  }

  /** The record of a name after its first typed occurrence. */
  lemma ObserveFresh(k: string, t: TType, format: Option<string>, empty: bool)
    ensures Observe(FreshInfo(k), t, format, empty)
         == Info(k, {t}, if format.Some? then {format.value} else {},
                 FromBool(IsNumericType(t)), FromBool(t == TagSentinel),
                 if t == TagSentinel then FromBool(empty) else Unset, {}, {})
  {
  }

  // Reports over one or two names.

  /** A report with findings under a single category. */
  lemma ReportSingle(src: Vars, tgt: Vars, c: Category, found: seq<Entry>)
    requires found != []
    requires Findings(c, src, tgt) == found
    requires forall c' | c' != c :: Findings(c', src, tgt) == []
    ensures Report(src, tgt) == map[c := found]
  {
    var r := Report(src, tgt);
    EveryCategory(c);
    forall c' ensures c' in r <==> c' == c {
      EveryCategory(c');
    }
    assert r.Keys == {c} && r[c] == found;
  }

  /** The findings when the scanned dictionary holds one name. */
  lemma FindingsOne(src: Vars, tgt: Vars, k: string, c: Category)
    requires Scanned(c, src, tgt) == [k]
    ensures Findings(c, src, tgt) == if Fires(c, src, tgt, k) then [Render(c, src, tgt, k)] else []
  {
    assert [k][..0] == [];
    assert Flagged(c, src, tgt, [k]) == if Fires(c, src, tgt, k) then [k] else [];
  }

  /** The findings of two single-placeholder dictionaries with one name. */
  lemma FindingsSingle(s: Info, t: Info, c: Category)
    requires s.name == t.name
    ensures Findings(c, Single(s), Single(t))
         == if Fires(c, Single(s), Single(t), s.name) then [Render(c, Single(s), Single(t), s.name)] else []
  {
    assert Scanned(c, Single(s), Single(t)) == [s.name];
    FindingsOne(Single(s), Single(t), s.name, c);
  }

  /** The findings when the scanned dictionary holds two names. */
  lemma FindingsPair(src: Vars, tgt: Vars, a: string, b: string, c: Category)
    requires Scanned(c, src, tgt) == [a, b]
    ensures Findings(c, src, tgt)
         == (if Fires(c, src, tgt, a) then [Render(c, src, tgt, a)] else [])
            + (if Fires(c, src, tgt, b) then [Render(c, src, tgt, b)] else [])
  {
    var names := [a, b];
    FlaggedStep(c, src, tgt, names, 0);
    FlaggedStep(c, src, tgt, names, 1);
    assert names[..0] == [] && names[..2] == names;
  }

  /** A name recorded alike on both sides, without choices, is not reported. */
  lemma QuietAgainstItself(d: Info)
    requires d.choices == {} && d.badPlural == {}
    ensures Report(Single(d), Single(d)) == map[]
  {
    forall c ensures Findings(c, Single(d), Single(d)) == [] {
      FindingsSingle(d, d, c);
      assert !WrongTypeRule(d, d);
      assert TagRule(d, d) == None;
    }
    assert forall c :: c !in Report(Single(d), Single(d));
  }

  // Messages with one placeholder.

  /** A literal followed by one placeholder without options or contents. */
  lemma ExtractLitPlaceholder(text: string, name: string, ttype: Option<TType>, format: Option<string>)
    ensures Extract([Lit(text), Placeholder(name, ttype, format)])
         == Single(if HasType(ttype) then Observe(FreshInfo(name), ttype.value, format, true) else FreshInfo(name))
  {
    var p := Placeholder(name, ttype, format);
    ObsCons(Lit(text), [p]);
    ObsOne(p);
    assert [Lit(text)] + [p] == [Lit(text), p];
    StepFirst(name);
    if HasType(ttype) {
      var typed := Typed(name, ttype.value, format, true);
      assert ObsList([Lit(text), p]) == [Seen(name), typed];
      StepTwo(Seen(name), typed);
      StepSingle(FreshInfo(name), typed);
    } else {
      assert ObsList([Lit(text), p]) == [Seen(name)];
      StepAllSingle(NoVars, Seen(name));
    }
  }

  /** A name seen with the type `number`, and that type only. */
  function NumberInfo(k: string, formats: set<string>): Info
  {
    Info(k, {Named("number")}, formats, T, F, Unset, {}, {})
  }

  lemma NumberObserved(k: string, format: Option<string>)
    ensures Observe(FreshInfo(k), Named("number"), format, true)
         == NumberInfo(k, if format.Some? then {format.value} else {})
  {
    ObserveFresh(k, Named("number"), format, true);
    assert IsNumericType(Named("number")) by { assert NumericTypes[0] == "number"; }
  }

  /** A numeric source name against the same name without a type. */
  lemma NumberAgainstUntyped(s: Info, c: Category)
    requires s.isNumber == T && s.isTag == F
    ensures Findings(c, Single(s), Single(FreshInfo(s.name)))
         == if c == WrongType then [Shown(s.name)] else []
  {
    FindingsSingle(s, FreshInfo(s.name), c);
  }

  /** `Cost: {value, number, ::currency/USD}` against `Kosten: {value}`:
      the target drops the numeric type. */
  lemma WrongTypeExample(k: string)
    ensures Report(Extract([Lit("Cost: "), Placeholder(k, Some(Named("number")), Some("::currency/USD"))]),
                   Extract([Lit("Kosten: "), Placeholder(k, None, None)]))
         == map[WrongType := [Shown(k)]]
  {
    ExtractLitPlaceholder("Cost: ", k, Some(Named("number")), Some("::currency/USD"));
    ExtractLitPlaceholder("Kosten: ", k, None, None);
    NumberObserved(k, Some("::currency/USD"));
    var s := NumberInfo(k, {"::currency/USD"});
    forall c ensures Findings(c, Single(s), Single(FreshInfo(k))) == (if c == WrongType then [Shown(k)] else []) {
      NumberAgainstUntyped(s, c);
    }
    ReportSingle(Single(s), Single(FreshInfo(k)), WrongType, [Shown(k)]);
  }

  /** `Cost: {value, number, ::currency/USD}` against
      `Kosten: {value, number, ::currency/USD}`: nothing is reported. */
  lemma TypesExample(k: string)
    ensures Report(Extract([Lit("Cost: "), Placeholder(k, Some(Named("number")), Some("::currency/USD"))]),
                   Extract([Lit("Kosten: "), Placeholder(k, Some(Named("number")), Some("::currency/USD"))]))
         == map[]
  {
    ExtractLitPlaceholder("Cost: ", k, Some(Named("number")), Some("::currency/USD"));
    ExtractLitPlaceholder("Kosten: ", k, Some(Named("number")), Some("::currency/USD"));
    NumberObserved(k, Some("::currency/USD"));
    QuietAgainstItself(NumberInfo(k, {"::currency/USD"}));
  }

  /** A source name that the target lacks entirely. */
  lemma OnlyInSource(k: string, c: Category)
    ensures Findings(c, Single(FreshInfo(k)), NoVars) == if c == Missing then [Shown(k)] else []
  {
    var src := Single(FreshInfo(k));
    assert [k][..0] == [];
    if c == Missing {
      assert Flagged(c, src, NoVars, [k]) == [k];
    }
  }

  /** `Hello, {name}!` against `Hallo, Fred!`: the placeholder is missing. */
  lemma MissingExample(k: string)
    ensures Report(Extract([Lit("Hello, "), Placeholder(k, None, None), Lit("!")]),
                   Extract([Lit("Hallo, Fred!")]))
         == map[Missing := [Shown(k)]]
  {
    ExtractGreeting("Hello, ", k);
    ObsOne(Lit("Hallo, Fred!"));
    assert Extract([Lit("Hallo, Fred!")]) == NoVars;
    forall c ensures Findings(c, Single(FreshInfo(k)), NoVars) == (if c == Missing then [Shown(k)] else []) {
      OnlyInSource(k, c);
    }
    ReportSingle(Single(FreshInfo(k)), NoVars, Missing, [Shown(k)]);
  }

  /** `Hallo, {firstName} {lastName}!` */
  function ExtraTarget(a: string, b: string): seq<Node>
  {
    [Lit("Hallo, "), Placeholder(a, None, None), Lit(" "), Placeholder(b, None, None), Lit("!")]
  }

  lemma ObsExtraTarget(a: string, b: string)
    ensures ObsList(ExtraTarget(a, b)) == [Seen(a), Seen(b)]
  {
    var p, q := Placeholder(a, None, None), Placeholder(b, None, None);
    assert ExtraTarget(a, b) == [Lit("Hallo, ")] + ([p] + ([Lit(" ")] + ([q] + [Lit("!")])));
    ObsCons(Lit("Hallo, "), [p] + ([Lit(" ")] + ([q] + [Lit("!")])));
    ObsCons(p, [Lit(" ")] + ([q] + [Lit("!")]));
    ObsCons(Lit(" "), [q] + [Lit("!")]);
    ObsCons(q, [Lit("!")]);
    ObsOne(Lit("!"));
  }

  lemma ExtractExtraTarget(a: string, b: string)
    requires a != b
    ensures Extract(ExtraTarget(a, b)) == Pair(FreshInfo(a), FreshInfo(b))
  {
    ObsExtraTarget(a, b);
    StepTwo(Seen(a), Seen(b));
    StepFirst(a);
    StepSeenNew(FreshInfo(a), b);
  }

  /** `Hello, {firstName}!` */
  lemma ExtractGreeting(text: string, k: string)
    ensures Extract([Lit(text), Placeholder(k, None, None), Lit("!")]) == Single(FreshInfo(k))
  {
    var p := Placeholder(k, None, None);
    ExtractionProperties.InertNodesIgnored([Lit(text), p], Lit("!"), []);
    assert [Lit(text), p, Lit("!")] == [Lit(text), p] + [Lit("!")] + [];
    assert [Lit(text), p] + [] == [Lit(text), p];
    ExtractLitPlaceholder(text, k, None, None);
  }

  /** `string` against `string`: a message without placeholders has nothing
      to compare. */
  lemma PlainExample(s: string, t: string)
    ensures Report(Extract([Lit(s)]), Extract([Lit(t)])) == map[]
  {
    ObsOne(Lit(s));
    ObsOne(Lit(t));
    assert Extract([Lit(s)]) == NoVars && Extract([Lit(t)]) == NoVars;
    QuietEmpty();
  }

  /** Two dictionaries without placeholders give an empty report. */
  lemma QuietEmpty()
    ensures Report(NoVars, NoVars) == map[]
  {
    forall c ensures Findings(c, NoVars, NoVars) == [] {
      assert Scanned(c, NoVars, NoVars) == [];
    }
    assert forall c :: c !in Report(NoVars, NoVars);
  }

  /** `Hello, {name}!` against `Hallo, {name}!` (the whitespace inside the
      braces is the parser's concern): the same untyped placeholder on both
      sides gives an empty report. */
  lemma NoFormatsExample(k: string)
    ensures Report(Extract([Lit("Hello, "), Placeholder(k, None, None), Lit("!")]),
                   Extract([Lit("Hallo, "), Placeholder(k, None, None), Lit("!")]))
         == map[]
  {
    ExtractGreeting("Hello, ", k);
    ExtractGreeting("Hallo, ", k);
    QuietAgainstItself(FreshInfo(k));
  }

  /** The findings for one untyped source name against the same name and a
      second untyped one. */
  lemma OneMoreFindings(a: string, b: string, c: Category)
    requires a != b
    ensures Findings(c, Single(FreshInfo(a)), Pair(FreshInfo(a), FreshInfo(b)))
         == if c == Extra then [Shown(b)] else []
  {
    var src, tgt := Single(FreshInfo(a)), Pair(FreshInfo(a), FreshInfo(b));
    assert !WrongTypeRule(FreshInfo(a), FreshInfo(a));
    assert TagRule(FreshInfo(a), FreshInfo(a)) == None;
    if c == Missing {
      FindingsOne(src, tgt, a, c);
    } else {
      FindingsPair(src, tgt, a, b, c);
    }
  }

  /** `Hello, {firstName}!` against `Hallo, {firstName} {lastName}!`: the
      second name is extra. */
  lemma ExtraExample(a: string, b: string)
    requires a != b
    ensures Report(Extract([Lit("Hello, "), Placeholder(a, None, None), Lit("!")]), Extract(ExtraTarget(a, b)))
         == map[Extra := [Shown(b)]]
  {
    ExtractGreeting("Hello, ", a);
    ExtractExtraTarget(a, b);
    var src, tgt := Single(FreshInfo(a)), Pair(FreshInfo(a), FreshInfo(b));
    forall c ensures Findings(c, src, tgt) == (if c == Extra then [Shown(b)] else []) {
      OneMoreFindings(a, b, c);
    }
    ReportSingle(src, tgt, Extra, [Shown(b)]);
  }

  // Plural targets against `{count, number}`.

  function NumberNode(k: string): Node
  {
    Placeholder(k, Some(Named("number")), None)
  }

  function PluralNode(k: string, subs: seq<Submessage>): Node
  {
    Ph(Some(k), Some(Named("plural")), None, Options(subs), NoContents)
  }

  /** A name seen with the type `plural`, with these choices. */
  function PluralInfo(k: string, choices: set<string>, bad: set<string>): Info
  {
    Info(k, {Named("plural")}, {}, T, F, Unset, choices, bad)
  }

  /** `{count, number}` */
  lemma ExtractNumber(k: string)
    ensures Extract([NumberNode(k)]) == Single(NumberInfo(k, {}))
  {
    ObsOne(NumberNode(k));
    var typed := Typed(k, Named("number"), None, true);
    assert ObsList([NumberNode(k)]) == [Seen(k), typed];
    StepTwo(Seen(k), typed);
    StepFirst(k);
    StepSingle(FreshInfo(k), typed);
    NumberObserved(k, None);
  }

  /** A name after its `plural` type, before any selector. */
  lemma PluralTyped(k: string)
    ensures Applied(FreshInfo(k), Typed(k, Named("plural"), None, true)) == PluralInfo(k, {}, {})
  {
    ObserveFresh(k, Named("plural"), None, true);
    assert IsNumericType(Named("plural")) by { assert NumericTypes[1] == "plural"; }
  }

  /** One more selector of a plural. */
  lemma AddPluralChoice(k: string, choices: set<string>, bad: set<string>, selector: string)
    requires |selector| > 0
    ensures Applied(PluralInfo(k, choices, bad), Choice(k, Some(Named("plural")), selector))
         == PluralInfo(k, choices + {selector}, if IsBadPluralSelector(selector) then bad + {selector} else bad)
  {
    assert IsPluralType(Some(Named("plural"))) by { assert PluralTypes[0] == "plural"; }
  }

  /** The fold over the observations of `{count, plural, one {typo}}`. */
  lemma OneOnlySteps(k: string)
    ensures Step(Step(Step(NoVars, Seen(k)), Typed(k, Named("plural"), None, true)), Choice(k, Some(Named("plural")), "one"))
         == Single(PluralInfo(k, {"one"}, {}))
  {
    var typed, choice := Typed(k, Named("plural"), None, true), Choice(k, Some(Named("plural")), "one");
    StepFirst(k);
    StepSingle(FreshInfo(k), typed);
    PluralTyped(k);
    StepSingle(PluralInfo(k, {}, {}), choice);
    AddPluralChoice(k, {}, {}, "one");
    assert !IsBadPluralSelector("one");
    assert {} + {"one"} == {"one"};
  }

  lemma ObsOneOnly(k: string)
    ensures ObsList([PluralNode(k, [Submessage("one", [Lit("typo")])])])
         == [Seen(k), Typed(k, Named("plural"), None, true), Choice(k, Some(Named("plural")), "one")]
  {
    var subs := [Submessage("one", [Lit("typo")])];
    ObsOne(PluralNode(k, subs));
    ObsOne(Lit("typo"));
    assert subs[..0] == [];
  }

  /** `{count, plural, one {typo}}` */
  lemma ExtractOneOnly(k: string)
    ensures Extract([PluralNode(k, [Submessage("one", [Lit("typo")])])]) == Single(PluralInfo(k, {"one"}, {}))
  {
    ObsOneOnly(k);
    StepThree(Seen(k), Typed(k, Named("plural"), None, true), Choice(k, Some(Named("plural")), "one"));
    OneOnlySteps(k);
  }

  lemma ObsBadAndOther(k: string)
    ensures ObsList([PluralNode(k, [Submessage("bad", [Lit("typo")]), Submessage("other", [Lit("okay")])])])
         == [Seen(k), Typed(k, Named("plural"), None, true),
             Choice(k, Some(Named("plural")), "bad"), Choice(k, Some(Named("plural")), "other")]
  {
    var plural := Some(Named("plural"));
    var subs := [Submessage("bad", [Lit("typo")]), Submessage("other", [Lit("okay")])];
    ObsOne(PluralNode(k, subs));
    ObsOne(Lit("typo"));
    ObsOne(Lit("okay"));
    assert subs[..1] == [subs[0]] && subs[..1][..0] == [];
    assert ObsOptions(k, plural, subs[..1]) == [Choice(k, plural, "bad")];
    assert ObsOptions(k, plural, subs) == [Choice(k, plural, "bad"), Choice(k, plural, "other")];
  }

  /** The fold over the observations of `{count, plural, bad {typo} other {okay}}`. */
  lemma BadAndOtherSteps(k: string)
    ensures Step(Step(Step(Step(NoVars, Seen(k)), Typed(k, Named("plural"), None, true)),
                      Choice(k, Some(Named("plural")), "bad")), Choice(k, Some(Named("plural")), "other"))
         == Single(PluralInfo(k, {"bad", "other"}, {"bad"}))
  {
    var plural := Some(Named("plural"));
    var typed := Typed(k, Named("plural"), None, true);
    var bad, other := Choice(k, plural, "bad"), Choice(k, plural, "other");
    StepFirst(k);
    StepSingle(FreshInfo(k), typed);
    PluralTyped(k);
    StepSingle(PluralInfo(k, {}, {}), bad);
    AddPluralChoice(k, {}, {}, "bad");
    assert IsBadPluralSelector("bad");
    StepSingle(PluralInfo(k, {"bad"}, {"bad"}), other);
    AddPluralChoice(k, {"bad"}, {"bad"}, "other");
    assert !IsBadPluralSelector("other");
    assert {} + {"bad"} == {"bad"} && {"bad"} + {"other"} == {"bad", "other"};
  }

  /** `{count, plural, bad {typo} other {okay}}` */
  lemma ExtractBadAndOther(k: string)
    ensures Extract([PluralNode(k, [Submessage("bad", [Lit("typo")]), Submessage("other", [Lit("okay")])])])
         == Single(PluralInfo(k, {"bad", "other"}, {"bad"}))
  {
    var plural := Some(Named("plural"));
    ObsBadAndOther(k);
    StepFour(Seen(k), Typed(k, Named("plural"), None, true), Choice(k, plural, "bad"), Choice(k, plural, "other"));
    BadAndOtherSteps(k);
  }

  /** A name numeric on both sides: only the target's own choices can be
      reported. */
  lemma NumericBothSides(s: Info, t: Info, c: Category)
    requires s.name == t.name && s.isNumber == T && t.isNumber == T && s.isTag == F && t.isTag == F
    ensures Findings(c, Single(s), Single(t))
         == if c == NoOther && MissesOther(t) then [Shown(s.name)]
            else if c == BadPlural && t.badPlural != {} then [Selectors(s.name, t.badPlural)]
            else []
  {
    FindingsSingle(s, t, c);
    assert !WrongTypeRule(s, t);
    assert TagRule(s, t) == None;
  }

  /** `{count, number}` against `{count, plural, one {typo}}`: no `other`. */
  lemma NoOtherExample(k: string)
    ensures Report(Extract([NumberNode(k)]), Extract([PluralNode(k, [Submessage("one", [Lit("typo")])])]))
         == map[NoOther := [Shown(k)]]
  {
    ExtractNumber(k);
    ExtractOneOnly(k);
    var s, t := NumberInfo(k, {}), PluralInfo(k, {"one"}, {});
    forall c ensures Findings(c, Single(s), Single(t)) == (if c == NoOther then [Shown(k)] else []) {
      NumericBothSides(s, t, c);
    }
    ReportSingle(Single(s), Single(t), NoOther, [Shown(k)]);
  }

  /** `{count, number}` against `{count, plural, bad {typo} other {okay}}`:
      the selector `bad` is reported. */
  lemma BadPluralExample(k: string)
    ensures Report(Extract([NumberNode(k)]),
                   Extract([PluralNode(k, [Submessage("bad", [Lit("typo")]), Submessage("other", [Lit("okay")])])]))
         == map[BadPlural := [Selectors(k, {"bad"})]]
  {
    ExtractNumber(k);
    ExtractBadAndOther(k);
    var s, t := NumberInfo(k, {}), PluralInfo(k, {"bad", "other"}, {"bad"});
    forall c ensures Findings(c, Single(s), Single(t)) == (if c == BadPlural then [Selectors(k, {"bad"})] else []) {
      NumericBothSides(s, t, c);
    }
    ReportSingle(Single(s), Single(t), BadPlural, [Selectors(k, {"bad"})]);
  }

  // Tags (the variant with simple XML tags allowed).

  /** A name seen once as a tag, with or without contents. */
  function TagInfo(k: string, empty: bool): Info
  {
    Info(k, {TagSentinel}, {}, F, T, FromBool(empty), {}, {})
  }

  lemma TagObserved(k: string, empty: bool)
    ensures Applied(FreshInfo(k), Typed(k, TagSentinel, None, empty)) == TagInfo(k, empty)
  {
    ObserveFresh(k, TagSentinel, None, empty);
  }

  /** `Hello, <bold>{firstName}</bold>.` */
  function BoldSource(a: string, b: string): seq<Node>
  {
    [Lit("Hello, "), TagNode(a, Contents([Placeholder(b, None, None)])), Lit(".")]
  }

  /** `Hello {bold} <firstName />.` */
  function BoldTarget(a: string, b: string): seq<Node>
  {
    [Lit("Hello "), Placeholder(a, None, None), Lit(" "), TagNode(b, NoContents), Lit(".")]
  }

  lemma ObsBoldSource(a: string, b: string)
    ensures ObsList(BoldSource(a, b)) == [Seen(a), Typed(a, TagSentinel, None, false), Seen(b)]
  {
    var p := Placeholder(b, None, None);
    var tag := TagNode(a, Contents([p]));
    assert BoldSource(a, b) == [Lit("Hello, ")] + ([tag] + [Lit(".")]);
    ObsCons(Lit("Hello, "), [tag] + [Lit(".")]);
    ObsCons(tag, [Lit(".")]);
    ObsOne(Lit("."));
    ObsOne(p);
    assert ObsNode(tag) == [Seen(a), Typed(a, TagSentinel, None, false)] + ObsList([p]);
  }

  lemma ObsBoldTarget(a: string, b: string)
    ensures ObsList(BoldTarget(a, b)) == [Seen(a), Seen(b), Typed(b, TagSentinel, None, true)]
  {
    var p := Placeholder(a, None, None);
    var tag := TagNode(b, NoContents);
    assert BoldTarget(a, b) == [Lit("Hello ")] + ([p] + ([Lit(" ")] + ([tag] + [Lit(".")])));
    ObsCons(Lit("Hello "), [p] + ([Lit(" ")] + ([tag] + [Lit(".")])));
    ObsCons(p, [Lit(" ")] + ([tag] + [Lit(".")]));
    ObsCons(Lit(" "), [tag] + [Lit(".")]);
    ObsCons(tag, [Lit(".")]);
    ObsOne(Lit("."));
    assert ObsNode(p) == [Seen(a)];
    assert ObsNode(tag) == [Seen(b), Typed(b, TagSentinel, None, true)];
  }

  lemma ExtractBoldSource(a: string, b: string)
    requires a != b
    ensures Extract(BoldSource(a, b)) == Pair(TagInfo(a, false), FreshInfo(b))
  {
    ObsBoldSource(a, b);
    var typed := Typed(a, TagSentinel, None, false);
    StepThree(Seen(a), typed, Seen(b));
    StepFirst(a);
    StepSingle(FreshInfo(a), typed);
    TagObserved(a, false);
    StepSeenNew(TagInfo(a, false), b);
  }

  lemma ExtractBoldTarget(a: string, b: string)
    requires a != b
    ensures Extract(BoldTarget(a, b)) == Pair(FreshInfo(a), TagInfo(b, true))
  {
    ObsBoldTarget(a, b);
    var typed := Typed(b, TagSentinel, None, true);
    StepThree(Seen(a), Seen(b), typed);
    StepFirst(a);
    StepSeenNew(FreshInfo(a), b);
    StepSecond(FreshInfo(a), FreshInfo(b), typed);
    TagObserved(b, true);
  }

  /** The tag of the source that became a plain placeholder. */
  lemma TagBecamePlaceholder(src: Vars, tgt: Vars, a: string, c: Category)
    requires a in src.entries && src.entries[a] == TagInfo(a, false)
    requires a in tgt.entries && tgt.entries[a] == FreshInfo(a)
    ensures Fires(c, src, tgt, a) <==> c == WrongType || c == ShouldBeTag
    ensures c != Missing && c != BadPlural ==> Render(c, src, tgt, a) == Shown(a)
  {
    assert TagRule(TagInfo(a, false), FreshInfo(a)) == Some(ShouldBeTag);
  }

  /** The plain placeholder of the source that became a tag. */
  lemma PlaceholderBecameTag(src: Vars, tgt: Vars, b: string, c: Category)
    requires b in src.entries && src.entries[b] == FreshInfo(b)
    requires b in tgt.entries && tgt.entries[b] == TagInfo(b, true)
    ensures Fires(c, src, tgt, b) <==> c == WrongType || c == NotTag
    ensures c != Missing && c != BadPlural ==> Render(c, src, tgt, b) == Shown("<" + b + ">")
  {
    assert TagRule(FreshInfo(b), TagInfo(b, true)) == Some(NotTag);
    assert WrongTypeRule(FreshInfo(b), TagInfo(b, true)) by {
      assert TagSentinel in TagInfo(b, true).types;
    }
  }

  /** What the comparison reports for the two messages: the target's tag
      prints in angle brackets, the target's plain placeholder without. */
  function BoldReport(a: string, b: string): Result
  {
    map[WrongType := [Shown(a), Shown("<" + b + ">")],
        ShouldBeTag := [Shown(a)],
        NotTag := [Shown("<" + b + ">")]]
  }

  lemma BoldFindings(a: string, b: string, c: Category)
    requires a != b
    ensures Findings(c, Pair(TagInfo(a, false), FreshInfo(b)), Pair(FreshInfo(a), TagInfo(b, true)))
         == Get(BoldReport(a, b), c)
  {
    var src, tgt := Pair(TagInfo(a, false), FreshInfo(b)), Pair(FreshInfo(a), TagInfo(b, true));
    FindingsPair(src, tgt, a, b, c);
    TagBecamePlaceholder(src, tgt, a, c);
    PlaceholderBecameTag(src, tgt, b, c);
  }

  /** `Hello, <bold>{firstName}</bold>.` against `Hello {bold} <firstName />.`:
      both names have the wrong type, `bold` should be a tag and
      `firstName` should not. */
  lemma TagVersusPlaceholderExample(a: string, b: string)
    requires a != b
    ensures Report(Extract(BoldSource(a, b)), Extract(BoldTarget(a, b))) == BoldReport(a, b)
  {
    ExtractBoldSource(a, b);
    ExtractBoldTarget(a, b);
    var src, tgt := Pair(TagInfo(a, false), FreshInfo(b)), Pair(FreshInfo(a), TagInfo(b, true));
    forall c ensures Get(BoldReport(a, b), c) == Findings(c, src, tgt) {
      BoldFindings(a, b, c);
    }
    ReportUnique(BoldReport(a, b), src, tgt);
  }

  /** `<empty/><empty></empty>`: the same tag twice, both times empty. */
  function EmptyTwice(e: string): seq<Node>
  {
    [TagNode(e, NoContents), TagNode(e, Contents([]))]
  }

  lemma ExtractEmptyOnce(e: string)
    ensures Extract([TagNode(e, NoContents)]) == Single(TagInfo(e, true))
  {
    var typed := Typed(e, TagSentinel, None, true);
    ObsOne(TagNode(e, NoContents));
    assert ObsList([TagNode(e, NoContents)]) == [Seen(e), typed];
    StepTwo(Seen(e), typed);
    StepFirst(e);
    StepSingle(FreshInfo(e), typed);
    TagObserved(e, true);
  }

  lemma ObsEmptyTwice(e: string)
    ensures ObsList(EmptyTwice(e))
         == [Seen(e), Typed(e, TagSentinel, None, true), Seen(e), Typed(e, TagSentinel, None, true)]
  {
    var n1, n2 := TagNode(e, NoContents), TagNode(e, Contents([]));
    ObsCons(n1, [n2]);
    ObsOne(n2);
    assert IsEmptyContents(Contents([]));
    assert ObsNode(n2) == [Seen(e), Typed(e, TagSentinel, None, true)] + ObsList([]);
    assert [n1] + [n2] == EmptyTwice(e);
  }

  lemma ExtractEmptyTwice(e: string)
    ensures Extract(EmptyTwice(e)) == Single(TagInfo(e, true))
  {
    var typed := Typed(e, TagSentinel, None, true);
    ObsEmptyTwice(e);
    StepFour(Seen(e), typed, Seen(e), typed);
    EmptyTwiceSteps(e);
  }

  /** The fold over the observations of `<empty/><empty></empty>`. */
  lemma EmptyTwiceSteps(e: string)
    ensures Step(Step(Step(Step(NoVars, Seen(e)), Typed(e, TagSentinel, None, true)), Seen(e)),
                 Typed(e, TagSentinel, None, true))
         == Single(TagInfo(e, true))
  {
    var typed := Typed(e, TagSentinel, None, true);
    StepFirst(e);
    StepSingle(FreshInfo(e), typed);
    TagObserved(e, true);
    StepSingle(TagInfo(e, true), Seen(e));
    StepSingle(TagInfo(e, true), typed);
  }

  /** `<empty />` against `<empty/><empty></empty>`: an empty tag used twice
      is still the same empty tag, and nothing is reported. */
  lemma EmptyTagsExample(e: string)
    ensures Report(Extract([TagNode(e, NoContents)]), Extract(EmptyTwice(e))) == map[]
  {
    ExtractEmptyOnce(e);
    ExtractEmptyTwice(e);
    QuietAgainstItself(TagInfo(e, true));
  }

  /** Two tags in a row, the first without contents and the second with a
      literal inside: `<empty /><full>tag</full>`. */
  function TwoTags(first: string, second: string): seq<Node>
  {
    [TagNode(first, NoContents), TagNode(second, Contents([Lit("tag")]))]
  }

  lemma ObsTwoTags(first: string, second: string)
    ensures ObsList(TwoTags(first, second))
         == [Seen(first), Typed(first, TagSentinel, None, true), Seen(second), Typed(second, TagSentinel, None, false)]
  {
    var n1, n2 := TagNode(first, NoContents), TagNode(second, Contents([Lit("tag")]));
    ObsCons(n1, [n2]);
    ObsOne(n2);
    ObsOne(Lit("tag"));
    assert ObsNode(n2) == [Seen(second), Typed(second, TagSentinel, None, false)] + ObsList([Lit("tag")]);
    assert [n1] + [n2] == [n1, n2];
  }

  lemma ExtractTwoTags(first: string, second: string)
    requires first != second
    ensures Extract(TwoTags(first, second)) == Pair(TagInfo(first, true), TagInfo(second, false))
  {
    ObsTwoTags(first, second);
    var o2, o4 := Typed(first, TagSentinel, None, true), Typed(second, TagSentinel, None, false);
    StepFour(Seen(first), o2, Seen(second), o4);
    StepFirst(first);
    StepSingle(FreshInfo(first), o2);
    TagObserved(first, true);
    StepSeenNew(TagInfo(first, true), second);
    StepSecond(TagInfo(first, true), FreshInfo(second), o4);
    TagObserved(second, false);
  }

  /** A tag whose contents appeared or disappeared in the target. */
  lemma TagContentsChanged(src: Vars, tgt: Vars, k: string, wasEmpty: bool, c: Category)
    requires k in src.entries && src.entries[k] == TagInfo(k, wasEmpty)
    requires k in tgt.entries && tgt.entries[k] == TagInfo(k, !wasEmpty)
    ensures Fires(c, src, tgt, k) <==> c == (if wasEmpty then TagNotEmpty else TagEmpty)
    ensures c != Missing && c != BadPlural ==> Render(c, src, tgt, k) == Shown("<" + k + ">")
  {
    assert TagRule(TagInfo(k, wasEmpty), TagInfo(k, !wasEmpty)) == Some(if wasEmpty then TagNotEmpty else TagEmpty);
  }

  /** What the comparison reports when the contents of two tags are swapped. */
  function SwappedContentsReport(e: string, f: string): Result
  {
    map[TagEmpty := [Shown("<" + f + ">")], TagNotEmpty := [Shown("<" + e + ">")]]
  }

  lemma SwappedContentsFindings(e: string, f: string, c: Category)
    requires e != f
    ensures Findings(c, Pair(TagInfo(e, true), TagInfo(f, false)), Pair(TagInfo(f, true), TagInfo(e, false)))
         == Get(SwappedContentsReport(e, f), c)
  {
    var src, tgt := Pair(TagInfo(e, true), TagInfo(f, false)), Pair(TagInfo(f, true), TagInfo(e, false));
    if c == Missing {
      FindingsPair(src, tgt, e, f, c);
    } else {
      FindingsPair(src, tgt, f, e, c);
      TagContentsChanged(src, tgt, f, false, c);
      TagContentsChanged(src, tgt, e, true, c);
    }
  }

  /** `<empty /><full>tag</full>` against `<full /><empty>tag</empty>`:
      `full` lost its contents and `empty` gained some. */
  lemma IncorrectlyFullTagsExample(e: string, f: string)
    requires e != f
    ensures Report(Extract(TwoTags(e, f)), Extract(TwoTags(f, e))) == SwappedContentsReport(e, f)
  {
    ExtractTwoTags(e, f);
    ExtractTwoTags(f, e);
    var src, tgt := Pair(TagInfo(e, true), TagInfo(f, false)), Pair(TagInfo(f, true), TagInfo(e, false));
    forall c ensures Get(SwappedContentsReport(e, f), c) == Findings(c, src, tgt) {
      SwappedContentsFindings(e, f, c);
    }
    ReportUnique(SwappedContentsReport(e, f), src, tgt);
  }
}
