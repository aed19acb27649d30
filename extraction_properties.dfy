/** What the summary built by `extractPlaceholders` means, independently of
    the order of the walk: each record is a function of the set of
    observations made for its name (weblate/checks/icu.py:123-192). */
module ExtractionProperties {
  import opened IcuAst
  import opened FourValue
  import opened Extraction

  function SetOf(obs: seq<Obs>): set<Obs>
  {
    set o | o in obs
  }

  /** The occurrences the walk makes on an AST, as a set. */
  function Occurrences(ast: seq<Node>): set<Obs>
  {
    SetOf(ObsList(ast))
  }

  function NamesOf(occ: set<Obs>): set<string>
  {
    set o | o in occ :: o.name
  }

  function TypesOf(k: string, occ: set<Obs>): set<TType>
  {
    set o | o in occ && o.Typed? && o.name == k :: o.t
  }

  function FormatsOf(k: string, occ: set<Obs>): set<string>
  {
    set o | o in occ && o.Typed? && o.name == k && o.format.Some? :: o.format.value
  }

  function NumberObs(k: string, occ: set<Obs>): set<bool>
  {
    set o | o in occ && o.Typed? && o.name == k :: IsNumericType(o.t)
  }

  function TagObs(k: string, occ: set<Obs>): set<bool>
  {
    set o | o in occ && o.Typed? && o.name == k :: o.t == TagSentinel
  }

  function EmptyObs(k: string, occ: set<Obs>): set<bool>
  {
    set o | o in occ && o.Typed? && o.name == k && o.t == TagSentinel :: o.empty
  }

  function ChoicesOf(k: string, occ: set<Obs>): set<string>
  {
    set o | o in occ && o.Choice? && o.name == k :: o.selector
  }

  predicate BadChoice(o: Obs)
  {
    o.Choice? && IsPluralType(o.ttype) && |o.selector| > 0 && IsBadPluralSelector(o.selector)
  }

  function BadOf(k: string, occ: set<Obs>): set<string>
  {
    set o | o in occ && BadChoice(o) && o.name == k :: o.selector
  }

  /** The record a name should have, given everything observed about it. */
  function InfoOf(k: string, occ: set<Obs>): Info
  {
    Info(k, TypesOf(k, occ), FormatsOf(k, occ),
         Summarize(NumberObs(k, occ)), Summarize(TagObs(k, occ)), Summarize(EmptyObs(k, occ)),
         ChoicesOf(k, occ), BadOf(k, occ))
  }

  ghost predicate Characterizes(vs: Vars, occ: set<Obs>)
  {
    && vs.entries.Keys == NamesOf(occ)
    && forall k | k in vs.entries :: vs.entries[k] == InfoOf(k, occ)
  }

  lemma InfoOfOtherName(k: string, occ: set<Obs>, o: Obs)
    requires o.name != k
    ensures InfoOf(k, occ + {o}) == InfoOf(k, occ)
  {
    var occ' := occ + {o};
    assert TypesOf(k, occ') == TypesOf(k, occ);
    assert FormatsOf(k, occ') == FormatsOf(k, occ);
    assert NumberObs(k, occ') == NumberObs(k, occ);
    assert TagObs(k, occ') == TagObs(k, occ);
    assert EmptyObs(k, occ') == EmptyObs(k, occ);
    assert ChoicesOf(k, occ') == ChoicesOf(k, occ);
    assert BadOf(k, occ') == BadOf(k, occ);
  }

  lemma InfoOfUnseen(k: string, occ: set<Obs>)
    requires k !in NamesOf(occ)
    ensures InfoOf(k, occ) == FreshInfo(k)
  {
    forall o | o in occ ensures o.name != k {
      assert o.name in NamesOf(occ);
    }
    assert TypesOf(k, occ) == {};
    assert FormatsOf(k, occ) == {};
    assert NumberObs(k, occ) == {};
    assert TagObs(k, occ) == {};
    assert EmptyObs(k, occ) == {};
    assert ChoicesOf(k, occ) == {};
    assert BadOf(k, occ) == {};
  }

  /** The sets a typed observation extends. */
  lemma TypedSets(occ: set<Obs>, o: Obs)
    requires o.Typed?
    ensures TypesOf(o.name, occ + {o}) == TypesOf(o.name, occ) + {o.t}
    ensures FormatsOf(o.name, occ + {o})
         == if o.format.Some? then FormatsOf(o.name, occ) + {o.format.value} else FormatsOf(o.name, occ)
    ensures ChoicesOf(o.name, occ + {o}) == ChoicesOf(o.name, occ)
    ensures BadOf(o.name, occ + {o}) == BadOf(o.name, occ)
  {
    var k, occ' := o.name, occ + {o};
    assert TypesOf(k, occ') == TypesOf(k, occ) + {o.t};
    assert FormatsOf(k, occ') == if o.format.Some? then FormatsOf(k, occ) + {o.format.value} else FormatsOf(k, occ);
    assert ChoicesOf(k, occ') == ChoicesOf(k, occ);
    assert BadOf(k, occ') == BadOf(k, occ);
  }

  /** The flags a typed observation updates. */
  lemma TypedFlags(occ: set<Obs>, o: Obs)
    requires o.Typed?
    ensures Summarize(NumberObs(o.name, occ + {o})) == UpdateFourValue(IsNumericType(o.t), Summarize(NumberObs(o.name, occ)))
    ensures Summarize(TagObs(o.name, occ + {o})) == UpdateFourValue(o.t == TagSentinel, Summarize(TagObs(o.name, occ)))
    ensures Summarize(EmptyObs(o.name, occ + {o}))
         == if o.t == TagSentinel then UpdateFourValue(o.empty, Summarize(EmptyObs(o.name, occ)))
            else Summarize(EmptyObs(o.name, occ))
  {
    var k, occ' := o.name, occ + {o};
    assert NumberObs(k, occ') == NumberObs(k, occ) + {IsNumericType(o.t)};
    UpdateSummarize(NumberObs(k, occ), IsNumericType(o.t));
    assert TagObs(k, occ') == TagObs(k, occ) + {o.t == TagSentinel};
    UpdateSummarize(TagObs(k, occ), o.t == TagSentinel);
    if o.t == TagSentinel {
      assert EmptyObs(k, occ') == EmptyObs(k, occ) + {o.empty};
      UpdateSummarize(EmptyObs(k, occ), o.empty);
    } else {
      assert EmptyObs(k, occ') == EmptyObs(k, occ);
    }
  }

  lemma InfoOfTyped(occ: set<Obs>, o: Obs)
    requires o.Typed?
    ensures InfoOf(o.name, occ + {o}) == Observe(InfoOf(o.name, occ), o.t, o.format, o.empty)
  {
    TypedSets(occ, o);
    TypedFlags(occ, o);
  }

  lemma InfoOfChoice(occ: set<Obs>, o: Obs)
    requires o.Choice?
    ensures InfoOf(o.name, occ + {o}) == AddChoice(InfoOf(o.name, occ), o.ttype, o.selector)
  {
    var k, occ' := o.name, occ + {o};
    assert TypesOf(k, occ') == TypesOf(k, occ);
    assert FormatsOf(k, occ') == FormatsOf(k, occ);
    assert NumberObs(k, occ') == NumberObs(k, occ);
    assert TagObs(k, occ') == TagObs(k, occ);
    assert EmptyObs(k, occ') == EmptyObs(k, occ);
    assert ChoicesOf(k, occ') == ChoicesOf(k, occ) + {o.selector};
    assert BadOf(k, occ') == if BadChoice(o) then BadOf(k, occ) + {o.selector} else BadOf(k, occ);
  }

  lemma InfoOfSeen(occ: set<Obs>, o: Obs)
    requires o.Seen?
    ensures InfoOf(o.name, occ + {o}) == InfoOf(o.name, occ)
  {
    var k, occ' := o.name, occ + {o};
    assert TypesOf(k, occ') == TypesOf(k, occ);
    assert FormatsOf(k, occ') == FormatsOf(k, occ);
    assert NumberObs(k, occ') == NumberObs(k, occ);
    assert TagObs(k, occ') == TagObs(k, occ);
    assert EmptyObs(k, occ') == EmptyObs(k, occ);
    assert ChoicesOf(k, occ') == ChoicesOf(k, occ);
    assert BadOf(k, occ') == BadOf(k, occ);
  }

  /** One step turns the summary of `occ` into the summary of `occ + {o}`. */
  lemma StepCharacterized(vs: Vars, occ: set<Obs>, o: Obs)
    requires Characterizes(vs, occ)
    ensures Characterizes(Step(vs, o), occ + {o})
  {
    var occ' := occ + {o};
    var r := Step(vs, o);
    assert NamesOf(occ') == NamesOf(occ) + {o.name};
    forall k | k in r.entries
      ensures r.entries[k] == InfoOf(k, occ')
    {
      StepEntry(vs, occ, o, k);
    }
  }

  /** The record of one name after a step. */
  lemma StepEntry(vs: Vars, occ: set<Obs>, o: Obs, k: string)
    requires Characterizes(vs, occ)
    requires k in Step(vs, o).entries
    ensures Step(vs, o).entries[k] == InfoOf(k, occ + {o})
  {
    if k != o.name {
      InfoOfOtherName(k, occ, o);
    } else {
      var v := SetDefault(vs, o.name);
      if o.name !in vs.entries {
        InfoOfUnseen(o.name, occ);
      }
      assert v.entries[o.name] == InfoOf(o.name, occ);
      if o.Seen? {
        InfoOfSeen(occ, o);
      } else if o.Typed? {
        InfoOfTyped(occ, o);
      } else {
        InfoOfChoice(occ, o);
      }
    }
  }

  lemma {:induction false} StepAllCharacterized(vs: Vars, occ: set<Obs>, obs: seq<Obs>)
    requires Characterizes(vs, occ)
    ensures Characterizes(StepAll(vs, obs), occ + SetOf(obs))
    decreases |obs|
  {
    if obs == [] {
      assert occ + SetOf(obs) == occ;
    } else {
      var init := obs[..|obs| - 1];
      var last := obs[|obs| - 1];
      StepAllCharacterized(vs, occ, init);
      StepCharacterized(StepAll(vs, init), occ + SetOf(init), last);
      SetOfSnoc(obs);
      assert occ + SetOf(init) + {last} == occ + SetOf(obs);
    }
  }

  lemma SetOfSnoc(obs: seq<Obs>)
    requires |obs| > 0
    ensures SetOf(obs) == SetOf(obs[..|obs| - 1]) + {obs[|obs| - 1]}
  {
    assert obs == obs[..|obs| - 1] + [obs[|obs| - 1]];
  }

  /** The main theorem: the summary's keys are the names observed, and every
      record is exactly what the set of observations for its name says:
      types and formats seen, each flag the merge of its observations,
      choices seen and the bad plural selectors among them. */
  lemma ExtractCharacterized(ast: seq<Node>)
    ensures Extract(ast).entries.Keys == NamesOf(Occurrences(ast))
    ensures forall k | k in Extract(ast).entries :: Extract(ast).entries[k] == InfoOf(k, Occurrences(ast))
    ensures Characterizes(Extract(ast), Occurrences(ast))
  {
    assert Characterizes(NoVars, {});
    StepAllCharacterized(NoVars, {}, ObsList(ast));
    assert {} + Occurrences(ast) == Occurrences(ast);
  }

  /** Hence the summary depends only on which occurrences the walk makes, not
      on their order or repetition. */
  lemma ExtractDeterminedByOccurrences(a: seq<Node>, b: seq<Node>)
    requires Occurrences(a) == Occurrences(b)
    ensures Extract(a).entries == Extract(b).entries
  {
    ExtractCharacterized(a);
    ExtractCharacterized(b);
    CharacterizedUnique(Extract(a), Extract(b), Occurrences(a));
  }

  /** Two dictionaries that summarize the same observations have the same
      records. */
  lemma CharacterizedUnique(v1: Vars, v2: Vars, occ: set<Obs>)
    requires Characterizes(v1, occ) && Characterizes(v2, occ)
    ensures v1.entries == v2.entries
  {
  }


  lemma {:induction false} ObsListAppend(a: seq<Node>, b: seq<Node>)
    ensures ObsList(a + b) == ObsList(a) + ObsList(b)
    decreases |b|
  {
    if b == [] {
      assert a + b == a;
    } else {
      var init := b[..|b| - 1];
      assert (a + b)[..|a + b| - 1] == a + init;
      assert (a + b)[|a + b| - 1] == b[|b| - 1];
      ObsListAppend(a, init);
    }
  }

  /** Swapping two fragments of a message changes only the order of the
      summary, never a record. */
  lemma ExtractSwap(a: seq<Node>, b: seq<Node>)
    ensures Extract(a + b).entries == Extract(b + a).entries
  {
    ObsListAppend(a, b);
    ObsListAppend(b, a);
    assert Occurrences(a + b) == Occurrences(b + a);
    ExtractDeterminedByOccurrences(a + b, b + a);
  }

  /** Repeating a fragment changes nothing at all: a placeholder used twice
      in the same way is summarized as if used once. */
  lemma ExtractRepeat(a: seq<Node>)
    ensures Extract(a + a).entries == Extract(a).entries
  {
    ObsListAppend(a, a);
    assert Occurrences(a + a) == Occurrences(a);
    ExtractDeterminedByOccurrences(a + a, a);
  }

  /** Literals and nameless nodes add nothing, wherever they stand; the
      summary, its order included, is as if they were absent. */
  lemma InertNodesIgnored(a: seq<Node>, n: Node, b: seq<Node>)
    requires n.Lit? || n.name.None?
    ensures Extract(a + [n] + b) == Extract(a + b)
  {
    ObsListAppend(a + [n], b);
    ObsListAppend(a, [n]);
    ObsListAppend(a, b);
    assert [n][..0] == [];
    assert ObsList([n]) == ObsList([]) + ObsNode(n);
    assert ObsList(a + [n]) == ObsList(a);
    assert ObsList(a + [n] + b) == ObsList(a + b);
  }

  /** Which names are placeholders of an AST: the names of the named nodes
      reachable through lists, option sub-messages and tag contents (the
      children of a nameless node are not visited). */
  predicate NameIn(k: string, ns: seq<Node>)
    decreases ns
  {
    exists i | 0 <= i < |ns| :: NameInNode(k, ns[i])
  }

  predicate NameInNode(k: string, n: Node)
    decreases n
  {
    match n
    case Lit(_) => false
    case Ph(None, _, _, _, _) => false
    case Ph(Some(m), _, _, options, contents) =>
      m == k
      || (options.Options? && NameInSubs(k, options.subs))
      || (contents.Contents? && NameIn(k, contents.nodes))
  }

  predicate NameInSubs(k: string, subs: seq<Submessage>)
    decreases subs
  {
    exists j | 0 <= j < |subs| :: NameIn(k, subs[j].body)
  }

  predicate Observed(k: string, obs: seq<Obs>)
  {
    exists i | 0 <= i < |obs| :: obs[i].name == k
  }

  lemma ObservedAppend(k: string, a: seq<Obs>, b: seq<Obs>)
    ensures Observed(k, a + b) <==> Observed(k, a) || Observed(k, b)
  {
    if Observed(k, a + b) {
      var i :| 0 <= i < |a + b| && (a + b)[i].name == k;
      if i >= |a| { assert b[i - |a|].name == k; }
    }
    if Observed(k, a) {
      var i :| 0 <= i < |a| && a[i].name == k;
      assert (a + b)[i] == a[i];
    }
    if Observed(k, b) {
      var i :| 0 <= i < |b| && b[i].name == k;
      assert (a + b)[|a| + i] == b[i];
    }
  }

  lemma {:induction false} NameInObserved(k: string, ns: seq<Node>)
    ensures NameIn(k, ns) <==> Observed(k, ObsList(ns))
    decreases ns
  {
    if |ns| > 0 {
      var init, last := ns[..|ns| - 1], ns[|ns| - 1];
      NameInObserved(k, init);
      NodeNameInObserved(k, last);
      ObservedAppend(k, ObsList(init), ObsNode(last));
      if NameIn(k, ns) {
        var i :| 0 <= i < |ns| && NameInNode(k, ns[i]);
        if i < |ns| - 1 { assert init[i] == ns[i]; }
      }
      if NameIn(k, init) {
        var i :| 0 <= i < |init| && NameInNode(k, init[i]);
        assert ns[i] == init[i];
      }
    }
  }

  lemma {:induction false} NodeNameInObserved(k: string, n: Node)
    ensures NameInNode(k, n) <==> Observed(k, ObsNode(n))
    decreases n
  {
    match n
    case Lit(_) =>
    case Ph(None, _, _, _, _) =>
    case Ph(Some(m), ttype, format, options, contents) =>
      var seen := [Seen(m)];
      var typed := if HasType(ttype) then [Typed(m, ttype.value, format, IsEmptyContents(contents))] else [];
      var opts := if options.Options? then ObsOptions(m, ttype, options.subs) else [];
      var inner := if contents.Contents? then ObsList(contents.nodes) else [];
      assert ObsNode(n) == seen + typed + opts + inner;
      ObservedAppend(k, seen + typed + opts, inner);
      ObservedAppend(k, seen + typed, opts);
      ObservedAppend(k, seen, typed);
      assert Observed(k, seen) <==> m == k by {
        assert seen[0].name == m;
      }
      assert Observed(k, typed) ==> m == k;
      if options.Options? {
        SubsNameInObserved(k, m, ttype, options.subs);
      }
      if contents.Contents? {
        NameInObserved(k, contents.nodes);
      }
  }

  lemma {:induction false} SubsNameInObserved(k: string, m: string, ttype: Option<TType>, subs: seq<Submessage>)
    ensures (NameInSubs(k, subs) || (m == k && |subs| > 0)) <==> Observed(k, ObsOptions(m, ttype, subs))
    decreases subs
  {
    if |subs| > 0 {
      var init, last := subs[..|subs| - 1], subs[|subs| - 1];
      SubsNameInObserved(k, m, ttype, init);
      NameInObserved(k, last.body);
      var choice := [Choice(m, ttype, last.selector)];
      ObservedAppend(k, ObsOptions(m, ttype, init) + choice, ObsList(last.body));
      ObservedAppend(k, ObsOptions(m, ttype, init), choice);
      assert Observed(k, choice) <==> m == k by {
        assert choice[0].name == m;
      }
      if NameInSubs(k, subs) {
        var j :| 0 <= j < |subs| && NameIn(k, subs[j].body);
        if j < |subs| - 1 { assert init[j] == subs[j]; }
      }
      if NameInSubs(k, init) {
        var j :| 0 <= j < |init| && NameIn(k, init[j].body);
        assert subs[j] == init[j];
      }
    }
  }

  /** The summary has one record for each placeholder name of the AST, and
      no other. */
  lemma ExtractKeys(ast: seq<Node>, k: string)
    ensures k in Extract(ast).entries <==> NameIn(k, ast)
  {
    ExtractCharacterized(ast);
    NameInObserved(k, ast);
    NamesObserved(k, ObsList(ast));
  }

  lemma NamesObserved(k: string, obs: seq<Obs>)
    ensures k in NamesOf(SetOf(obs)) <==> Observed(k, obs)
  {
    if k in NamesOf(SetOf(obs)) {
      var o :| o in SetOf(obs) && o.name == k;
      var i :| 0 <= i < |obs| && obs[i] == o;
    }
    if Observed(k, obs) {
      var i :| 0 <= i < |obs| && obs[i].name == k;
      assert obs[i] in SetOf(obs);
    }
  }

  /** Some occurrence of `a` comes before every occurrence of `b`. */
  predicate OccursBefore(a: string, b: string, obs: seq<Obs>)
  {
    forall p | 0 <= p < |obs| && obs[p].name == b :: exists q | 0 <= q < p :: obs[q].name == a
  }

  /** The names of `vs` are those occurring in `obs`, in the order of `vs`. */
  predicate OrderedBy(vs: Vars, obs: seq<Obs>)
  {
    && (forall k | k in vs.entries :: exists q | 0 <= q < |obs| :: obs[q].name == k)
    && (forall q | 0 <= q < |obs| :: obs[q].name in vs.entries)
    && (forall i, j | 0 <= i < j < |vs.order| :: OccursBefore(vs.order[i], vs.order[j], obs))
  }

  lemma OccursBeforeSnoc(x: string, y: string, init: seq<Obs>, last: Obs)
    requires OccursBefore(x, y, init)
    requires exists q | 0 <= q < |init| :: init[q].name == x
    ensures OccursBefore(x, y, init + [last])
  {
    var obs := init + [last];
    var q :| 0 <= q < |init| && init[q].name == x;
    forall p | 0 <= p < |obs| && obs[p].name == y ensures exists q' | 0 <= q' < p :: obs[q'].name == x {
      if p < |init| {
        assert init[p].name == y;
        var q' :| 0 <= q' < p && init[q'].name == x;
        assert obs[q'] == init[q'];
      } else {
        assert obs[q] == init[q];
      }
    }
  }

  lemma StepOrderKeys(v: Vars, init: seq<Obs>, last: Obs)
    requires OrderedBy(v, init)
    ensures forall k | k in Step(v, last).entries :: exists q | 0 <= q < |init + [last]| :: (init + [last])[q].name == k
    ensures forall q | 0 <= q < |init + [last]| :: (init + [last])[q].name in Step(v, last).entries
  {
    var obs, r := init + [last], Step(v, last);
    forall k | k in r.entries ensures exists q | 0 <= q < |obs| :: obs[q].name == k {
      if k == last.name {
        assert obs[|init|].name == k;
      } else {
        var q :| 0 <= q < |init| && init[q].name == k;
        assert obs[q] == init[q];
      }
    }
    forall q | 0 <= q < |obs| ensures obs[q].name in r.entries {
      if q < |init| { assert obs[q] == init[q]; }
    }
  }

  lemma StepOrder(v: Vars, init: seq<Obs>, last: Obs)
    requires ValidVars(v) && OrderedBy(v, init)
    ensures OrderedBy(Step(v, last), init + [last])
  {
    var r := Step(v, last);
    StepOrderKeys(v, init, last);
    assert r.order == if last.name in v.entries then v.order else v.order + [last.name];
    forall i, j | 0 <= i < j < |r.order| ensures OccursBefore(r.order[i], r.order[j], init + [last]) {
      var x, y := r.order[i], r.order[j];
      assert x == v.order[i] && x in v.entries;
      if j < |v.order| {
        assert y == v.order[j];
      } else {
        assert y !in v.entries;
      }
      OccursBeforeSnoc(x, y, init, last);
    }
  }

  lemma {:induction false} StepAllOrder(obs: seq<Obs>)
    ensures OrderedBy(StepAll(NoVars, obs), obs)
    decreases |obs|
  {
    if obs != [] {
      var init, last := obs[..|obs| - 1], obs[|obs| - 1];
      assert obs == init + [last];
      StepAllOrder(init);
      StepAllValid(NoVars, init);
      StepOrder(StepAll(NoVars, init), init, last);
    }
  }

  /** The summary lists its names in the order of their first occurrence in
      the walk (`variables.setdefault` inserts a name when it is first met). */
  lemma ExtractOrder(ast: seq<Node>, i: nat, j: nat)
    requires i < j < |Extract(ast).order|
    ensures OccursBefore(Extract(ast).order[i], Extract(ast).order[j], ObsList(ast))
  {
    StepAllOrder(ObsList(ast));
  }

  /** Every bad plural selector recorded for a name is one of its choices,
      is bad by `isBadPluralSelector`, and was seen on a plural or
      selectordinal occurrence of that name. */
  lemma BadPluralSound(ast: seq<Node>, k: string, s: string)
    requires k in Extract(ast).entries
    requires s in Extract(ast).entries[k].badPlural
    ensures s in Extract(ast).entries[k].choices
    ensures |s| > 0 && IsBadPluralSelector(s)
    ensures exists t :: IsPluralType(t) && Choice(k, t, s) in ObsList(ast)
  {
    ExtractCharacterized(ast);
    var o :| o in Occurrences(ast) && BadChoice(o) && o.name == k && o.selector == s;
    assert o == Choice(k, o.ttype, s);
    assert s in ChoicesOf(k, Occurrences(ast));
  }

  /** Conversely every bad selector of a plural occurrence is recorded. */
  lemma BadPluralComplete(ast: seq<Node>, k: string, t: Option<TType>, s: string)
    requires Choice(k, t, s) in ObsList(ast)
    requires IsPluralType(t) && |s| > 0 && IsBadPluralSelector(s)
    ensures k in Extract(ast).entries && s in Extract(ast).entries[k].badPlural
  {
    ExtractCharacterized(ast);
    var o := Choice(k, t, s);
    assert o in Occurrences(ast);
    assert k in NamesOf(Occurrences(ast));
    assert s in BadOf(k, Occurrences(ast));
  }

  lemma NoTagObs(ns: seq<Node>)
    requires !ContainsTag(ns)
    ensures forall i | 0 <= i < |ObsList(ns)| :: ObsList(ns)[i].Typed? ==> ObsList(ns)[i].t != TagSentinel
    decreases ns
  {
    if |ns| > 0 {
      var init, last := ns[..|ns| - 1], ns[|ns| - 1];
      assert forall i | 0 <= i < |init| :: init[i] == ns[i];
      NoTagObs(init);
      NodeNoTagObs(last);
    }
  }

  lemma NodeNoTagObs(n: Node)
    requires !NodeContainsTag(n)
    ensures forall i | 0 <= i < |ObsNode(n)| :: ObsNode(n)[i].Typed? ==> ObsNode(n)[i].t != TagSentinel
    decreases n
  {
    match n
    case Lit(_) =>
    case Ph(None, _, _, _, _) =>
    case Ph(Some(m), ttype, format, options, contents) =>
      if options.Options? {
        SubsNoTagObs(m, ttype, options.subs);
      }
      if contents.Contents? {
        NoTagObs(contents.nodes);
      }
  }

  lemma SubsNoTagObs(m: string, ttype: Option<TType>, subs: seq<Submessage>)
    requires !SubsContainTag(subs)
    ensures forall i | 0 <= i < |ObsOptions(m, ttype, subs)| ::
              ObsOptions(m, ttype, subs)[i].Typed? ==> ObsOptions(m, ttype, subs)[i].t != TagSentinel
    decreases subs
  {
    if |subs| > 0 {
      var init := subs[..|subs| - 1];
      assert forall j | 0 <= j < |init| :: init[j] == subs[j];
      SubsNoTagObs(m, ttype, init);
      assert !ContainsTag(subs[|subs| - 1].body);
      NoTagObs(subs[|subs| - 1].body);
    }
  }

  /** Without any tag in the AST, no name is a tag and no tag is empty or
      full: `is_tag` is never True and `is_empty` stays unset. */
  lemma TagFreeSummary(ast: seq<Node>, k: string)
    requires !ContainsTag(ast)
    requires k in Extract(ast).entries
    ensures Extract(ast).entries[k].isTag != T
    ensures Extract(ast).entries[k].isEmpty == Unset
  {
    NoTagObs(ast);
    NoTagInSet(ObsList(ast));
    ExtractCharacterized(ast);
    NoTagOccurrences(Extract(ast), Occurrences(ast), k);
  }

  lemma NoTagInSet(obs: seq<Obs>)
    requires forall i | 0 <= i < |obs| :: obs[i].Typed? ==> obs[i].t != TagSentinel
    ensures forall o | o in SetOf(obs) && o.Typed? :: o.t != TagSentinel
  {
    forall o | o in SetOf(obs) && o.Typed? ensures o.t != TagSentinel {
      var i :| 0 <= i < |obs| && obs[i] == o;
    }
  }

  /** Observations without the tag type say nothing about `is_tag` being
      True or about `is_empty`. */
  lemma NoTagOccurrences(vs: Vars, occ: set<Obs>, k: string)
    requires Characterizes(vs, occ) && k in vs.entries
    requires forall o | o in occ && o.Typed? :: o.t != TagSentinel
    ensures vs.entries[k].isTag != T
    ensures vs.entries[k].isEmpty == Unset
  {
    assert vs.entries[k] == InfoOf(k, occ);
    assert true !in TagObs(k, occ);
    assert EmptyObs(k, occ) == {};
  }
}
