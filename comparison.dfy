/** The comparison of the source and target summaries in `check_format`
    (weblate/checks/icu.py:256-320): the `result` defaultdict of lists,
    keyed by category, filled by a loop over the target names and a loop
    over the source names.

    The specification says, per category, which names are reported (Fires)
    and how each is shown (Render); the list of a category is the rendering
    of the names that fire, in the iteration order of the dictionary the
    loop walks (Findings). */
module Comparison {
  import opened IcuAst
  import opened FourValue
  import opened Extraction

  datatype Category =
    | Syntax | Extra | Missing | WrongType | NoOther | BadPlural
    | ShouldBeTag | NotTag | TagNotEmpty | TagEmpty

  const AllCategories: set<Category> :=
    {Syntax, Extra, Missing, WrongType, NoOther, BadPlural, ShouldBeTag, NotTag, TagNotEmpty, TagEmpty}

  predicate IsTagCategory(c: Category)
  {
    c == ShouldBeTag || c == NotTag || c == TagNotEmpty || c == TagEmpty
  }

  /** An element of a result list: a printed name, a `[print_name,
      bad_plural]` pair, or a syntax error. */
  datatype Entry =
    | Shown(shown: string)
    | Selectors(shown: string, selectors: set<string>)
    | SyntaxEntry(err: ParseError)

  type Result = map<Category, seq<Entry>>

  /** Reading a defaultdict(list): a missing key reads as the empty list. */
  function Get(result: Result, c: Category): seq<Entry>
  {
    if c in result then result[c] else []
  }

  /** `result[c].append(e)` on a defaultdict(list). */
  function Append(result: Result, c: Category, e: Entry): (r: Result)
    ensures r.Keys == result.Keys + {c}
    ensures Get(r, c) == Get(result, c) + [e]
    ensures forall c' | c' != c :: Get(r, c') == Get(result, c')
  {
    result[c := Get(result, c) + [e]]
  }

  /** `'<{}>'.format(name) if data['is_tag'] else name` */
  function PrintName(name: string, d: Info): (shown: string)
    ensures Truthy(d.isTag) ==> shown == "<" + name + ">"
    ensures !Truthy(d.isTag) ==> shown == name
  {
    if Truthy(d.isTag) then "<" + name + ">" else name
  }

  /** Lines 262-264: choices were seen and none of them is `other`. */
  predicate MissesOther(d: Info)
  {
    d.choices != {} && "other" !in d.choices
  }

  /** Lines 278-286: with a boolean source `is_number`, Python `!=` against
      the target's flag; otherwise some target type the source never had. */
  predicate WrongTypeRule(src: Info, tgt: Info)
  {
    if IsBool(src.isNumber) then PyNe(src.isNumber, tgt.isNumber)
    else exists t | t in tgt.types :: t !in src.types
  }

  /** Lines 291-304: the one tag category, if any, reported for a name
      present on both sides. */
  function TagRule(src: Info, tgt: Info): (c: Option<Category>)
    ensures c.Some? ==> IsTagCategory(c.value)
  {
    if IsBool(src.isTag) || tgt.isTag != Unset then
      if Truthy(src.isTag) then
        if !Truthy(tgt.isTag) then Some(ShouldBeTag)
        else if IsBool(src.isEmpty) && PyNe(src.isEmpty, tgt.isEmpty) then
          (if Truthy(src.isEmpty) then Some(TagNotEmpty) else Some(TagEmpty))
        else None
      else if Truthy(tgt.isTag) then Some(NotTag)
      else None
    else None
  }

  /** Whether the name `k` is reported under category `c`. */
  predicate Fires(c: Category, src: Vars, tgt: Vars, k: string)
  {
    match c
    case Syntax => false
    case Missing => k in src.entries && k !in tgt.entries
    case Extra => k in tgt.entries && k !in src.entries
    case NoOther => k in tgt.entries && MissesOther(tgt.entries[k])
    case BadPlural => k in tgt.entries && tgt.entries[k].badPlural != {}
    case WrongType =>
      k in tgt.entries && k in src.entries && WrongTypeRule(src.entries[k], tgt.entries[k])
    case _ =>
      k in tgt.entries && k in src.entries && TagRule(src.entries[k], tgt.entries[k]) == Some(c)
  }

  /** How a reported name is written into its list: `missing` prints with
      the source's `is_tag`, every other category with the target's. */
  function Render(c: Category, src: Vars, tgt: Vars, k: string): Entry
  {
    if c == Missing then Shown(if k in src.entries then PrintName(k, src.entries[k]) else k)
    else if c == BadPlural && k in tgt.entries
    then Selectors(PrintName(k, tgt.entries[k]), tgt.entries[k].badPlural)
    else Shown(if k in tgt.entries then PrintName(k, tgt.entries[k]) else k)
  }

  /** The dictionary whose iteration order a category's list follows. */
  function Scanned(c: Category, src: Vars, tgt: Vars): seq<string>
  {
    if c == Missing then src.order else tgt.order
  }

  /** The names of `names` that are reported under `c`, in order. */
  function Flagged(c: Category, src: Vars, tgt: Vars, names: seq<string>): seq<string>
  {
    if names == [] then []
    else
      var last := names[|names| - 1];
      Flagged(c, src, tgt, names[..|names| - 1]) + (if Fires(c, src, tgt, last) then [last] else [])
  }

  function RenderAll(c: Category, src: Vars, tgt: Vars, names: seq<string>): (r: seq<Entry>)
    ensures |r| == |names|
  {
    seq(|names|, i requires 0 <= i < |names| => Render(c, src, tgt, names[i]))
  }

  /** The list `check_format` builds for category `c`. */
  function Findings(c: Category, src: Vars, tgt: Vars): seq<Entry>
  {
    RenderAll(c, src, tgt, Flagged(c, src, tgt, Scanned(c, src, tgt)))
  }

  /** The dictionary `check_format` builds: one key per category that has
      findings. */
  function Report(src: Vars, tgt: Vars): Result
  {
    map c | c in AllCategories && Findings(c, src, tgt) != [] :: Findings(c, src, tgt)
  }

  /** The enumeration of the categories is complete (Dafny proves this one
      category at a time, not under a quantifier). */
  lemma EveryCategory(c: Category)
    ensures c in AllCategories
  {
  }

  /** A defaultdict holding exactly the findings, with no empty list, is the
      report. */
  lemma ReportUnique(result: Result, src: Vars, tgt: Vars)
    requires forall c :: Get(result, c) == Findings(c, src, tgt)
    requires forall c | c in result :: result[c] != []
    ensures result == Report(src, tgt)
  {
    var rep := Report(src, tgt);
    forall c ensures c in result <==> c in rep {
      EveryCategory(c);
    }
    forall c | c in result ensures result[c] == rep[c] {
      EveryCategory(c);
    }
  }

  lemma RenderAllSnoc(c: Category, src: Vars, tgt: Vars, names: seq<string>, k: string)
    ensures RenderAll(c, src, tgt, names + [k]) == RenderAll(c, src, tgt, names) + [Render(c, src, tgt, k)]
  {
  }

  lemma FlaggedStep(c: Category, src: Vars, tgt: Vars, names: seq<string>, i: nat)
    requires i < |names|
    ensures RenderAll(c, src, tgt, Flagged(c, src, tgt, names[..i + 1]))
         == RenderAll(c, src, tgt, Flagged(c, src, tgt, names[..i]))
            + (if Fires(c, src, tgt, names[i]) then [Render(c, src, tgt, names[i])] else [])
  {
    assert names[..i + 1][..i] == names[..i];
    var f := Flagged(c, src, tgt, names[..i]);
    if Fires(c, src, tgt, names[i]) {
      RenderAllSnoc(c, src, tgt, f, names[i]);
    } else {
      assert Flagged(c, src, tgt, names[..i + 1]) == f;
    }
  }

  /** What handling the name `k` adds to the list of category `c` in the
      loop over the target names. */
  function Added(c: Category, src: Vars, tgt: Vars, k: string): seq<Entry>
  {
    if Fires(c, src, tgt, k) && c != Missing then [Render(c, src, tgt, k)] else []
  }

  /** The defaultdict holds no empty list. */
  predicate NonEmptyLists(result: Result)
  {
    forall c | c in result :: result[c] != []
  }

  /** Lines 262-269: the `no_other` and `bad_plural` tests of a target name. */
  method CheckChoices(src: Vars, tgt: Vars, name: string, result: Result) returns (r: Result)
    requires name in tgt.entries && NonEmptyLists(result)
    ensures NonEmptyLists(r)
    ensures Get(r, NoOther) == Get(result, NoOther) + Added(NoOther, src, tgt, name)
    ensures Get(r, BadPlural) == Get(result, BadPlural) + Added(BadPlural, src, tgt, name)
    ensures forall c | c != NoOther && c != BadPlural :: Get(r, c) == Get(result, c)
  {
    r := result;
    var data := tgt.entries[name];
    var printName := PrintName(name, data);
    if data.choices != {} && "other" !in data.choices {
      r := Append(r, NoOther, Shown(printName));
    }
    if data.badPlural != {} {
      r := Append(r, BadPlural, Selectors(printName, data.badPlural));
    }
  }

  /** Lines 278-286: the `wrong_type` test of a name present on both sides. */
  method CheckWrongType(src: Vars, tgt: Vars, name: string, result: Result) returns (r: Result)
    requires name in tgt.entries && name in src.entries && NonEmptyLists(result)
    ensures NonEmptyLists(r)
    ensures Get(r, WrongType) == Get(result, WrongType) + Added(WrongType, src, tgt, name)
    ensures forall c | c != WrongType :: Get(r, c) == Get(result, c)
  {
    r := result;
    var data, srcData := tgt.entries[name], src.entries[name];
    var printName := PrintName(name, data);
    if IsBool(srcData.isNumber) {
      if PyNe(srcData.isNumber, data.isNumber) {
        r := Append(r, WrongType, Shown(printName));
      }
    } else {
      // the loop over the target types appends once, at the first type the
      // source lacks, and then breaks; whether there is one is decided by
      // the set difference, so the iteration order does not matter
      var unseen := data.types - srcData.types;
      if unseen != {} {
        ghost var t :| t in unseen;
        assert t in data.types && t !in srcData.types;
        r := Append(r, WrongType, Shown(printName));
      } else {
        assert !WrongTypeRule(srcData, data) by {
          forall t | t in data.types ensures t in srcData.types {
            assert t !in unseen;
          }
        }
      }
    }
  }

  /** Lines 291-304: the tag tests of a name present on both sides. */
  method CheckTag(src: Vars, tgt: Vars, name: string, result: Result) returns (r: Result)
    requires name in tgt.entries && name in src.entries && NonEmptyLists(result)
    ensures NonEmptyLists(r)
    ensures forall c | IsTagCategory(c) :: Get(r, c) == Get(result, c) + Added(c, src, tgt, name)
    ensures forall c | !IsTagCategory(c) :: Get(r, c) == Get(result, c)
  {
    r := result;
    var data, srcData := tgt.entries[name], src.entries[name];
    var printName := PrintName(name, data);
    if IsBool(srcData.isTag) || data.isTag != Unset {
      if Truthy(srcData.isTag) {
        if !Truthy(data.isTag) {
          r := Append(r, ShouldBeTag, Shown(printName));
        } else if IsBool(srcData.isEmpty) && PyNe(srcData.isEmpty, data.isEmpty) {
          if Truthy(srcData.isEmpty) {
            r := Append(r, TagNotEmpty, Shown(printName));
          } else {
            r := Append(r, TagEmpty, Shown(printName));
          }
        }
      } else if Truthy(data.isTag) {
        r := Append(r, NotTag, Shown(printName));
      }
    }
    forall c | IsTagCategory(c) ensures Get(r, c) == Get(result, c) + Added(c, src, tgt, name) {
      TagAdded(src, tgt, name, c);
    }
  }

  /** What a tag category gains for a name present on both sides. */
  lemma TagAdded(src: Vars, tgt: Vars, name: string, c: Category)
    requires name in tgt.entries && name in src.entries && IsTagCategory(c)
    ensures Added(c, src, tgt, name)
         == if TagRule(src.entries[name], tgt.entries[name]) == Some(c)
            then [Shown(PrintName(name, tgt.entries[name]))] else []
  {
  }

  /** Lines 271-304: the tests of a target name that the source also has. */
  method CheckSharedName(src: Vars, tgt: Vars, name: string, result: Result) returns (r: Result)
    requires name in tgt.entries && name in src.entries && NonEmptyLists(result)
    ensures NonEmptyLists(r)
    ensures forall c | c != NoOther && c != BadPlural :: Get(r, c) == Get(result, c) + Added(c, src, tgt, name)
    ensures Get(r, NoOther) == Get(result, NoOther) && Get(r, BadPlural) == Get(result, BadPlural)
  {
    var r1 := CheckWrongType(src, tgt, name, result);
    r := CheckTag(src, tgt, name, r1);
    forall c | c != NoOther && c != BadPlural ensures Get(r, c) == Get(result, c) + Added(c, src, tgt, name) {
      if c == WrongType {
        assert Get(r, c) == Get(r1, c);
      } else if IsTagCategory(c) {
        assert Get(r1, c) == Get(result, c);
      } else {
        AddedElsewhere(c, src, tgt, name);
        assert Get(r, c) == Get(result, c);
      }
    }
  }

  /** The body of the loop over the target names (lines 258-309). */
  method CheckTargetName(src: Vars, tgt: Vars, name: string, result: Result) returns (r: Result)
    requires name in tgt.entries && NonEmptyLists(result)
    ensures NonEmptyLists(r)
    ensures forall c :: Get(r, c) == Get(result, c) + Added(c, src, tgt, name)
  {
    var r1 := CheckChoices(src, tgt, name, result);
    if name in src.entries {
      r := CheckSharedName(src, tgt, name, r1);
      forall c ensures Get(r, c) == Get(result, c) + Added(c, src, tgt, name) {
        if c == NoOther || c == BadPlural {
          assert Get(r, c) == Get(r1, c);
        } else {
          assert Get(r1, c) == Get(result, c);
        }
      }
    } else {
      r := Append(r1, Extra, Shown(PrintName(name, tgt.entries[name])));
      forall c ensures Get(r, c) == Get(result, c) + Added(c, src, tgt, name) {
        AddedElsewhere(c, src, tgt, name);
        if c == NoOther || c == BadPlural {
          assert Get(r, c) == Get(r1, c);
        } else if c != Extra {
          assert Get(r, c) == Get(result, c);
        }
      }
    }
  }

  /** The categories a target name cannot add to: `syntax` and `missing`
      always, and everything but `extra` and the choice tests when the name
      is not in the source. */
  lemma AddedElsewhere(c: Category, src: Vars, tgt: Vars, name: string)
    requires name in tgt.entries
    ensures c == Syntax || c == Missing ==> Added(c, src, tgt, name) == []
    ensures name in src.entries ==> Added(Extra, src, tgt, name) == []
    ensures name !in src.entries && c != Extra && c != NoOther && c != BadPlural
            ==> Added(c, src, tgt, name) == []
    ensures name !in src.entries
            ==> Added(Extra, src, tgt, name) == [Shown(PrintName(name, tgt.entries[name]))]
  {
  }

  /** One turn of the loop over the target names extends every list but
      `missing` by what that name adds. */
  lemma TargetLoopStep(src: Vars, tgt: Vars, before: Result, after: Result, i: nat)
    requires i < |tgt.order|
    requires forall c | c != Missing ::
               Get(before, c) == RenderAll(c, src, tgt, Flagged(c, src, tgt, tgt.order[..i]))
    requires forall c :: Get(after, c) == Get(before, c) + Added(c, src, tgt, tgt.order[i])
    ensures forall c | c != Missing ::
              Get(after, c) == RenderAll(c, src, tgt, Flagged(c, src, tgt, tgt.order[..i + 1]))
    ensures Get(after, Missing) == Get(before, Missing)
  {
    forall c | c != Missing
      ensures Get(after, c) == RenderAll(c, src, tgt, Flagged(c, src, tgt, tgt.order[..i + 1]))
    {
      FlaggedStep(c, src, tgt, tgt.order, i);
    }
  }

  /** Lines 256-309: the loop over the target names fills every list but
      `missing`. */
  method CheckTargetNames(src: Vars, tgt: Vars) returns (result: Result)
    requires ValidVars(tgt)
    ensures forall c | c != Missing :: Get(result, c) == Findings(c, src, tgt)
    ensures Missing !in result && NonEmptyLists(result)
  {
    result := map[];
    for i := 0 to |tgt.order|
      invariant forall c | c != Missing ::
                  Get(result, c) == RenderAll(c, src, tgt, Flagged(c, src, tgt, tgt.order[..i]))
      invariant Missing !in result
      invariant NonEmptyLists(result)
    {
      var before := result;
      result := CheckTargetName(src, tgt, tgt.order[i], result);
      TargetLoopStep(src, tgt, before, result, i);
    }
    assert tgt.order[..|tgt.order|] == tgt.order;
  }

  /** Lines 311-316: the loop over the source names fills `missing`. */
  method CheckSourceNames(src: Vars, tgt: Vars, result: Result) returns (r: Result)
    requires ValidVars(src)
    requires forall c | c != Missing :: Get(result, c) == Findings(c, src, tgt)
    requires Missing !in result && NonEmptyLists(result)
    ensures r == Report(src, tgt)
  {
    r := result;
    for j := 0 to |src.order|
      invariant forall c | c != Missing :: Get(r, c) == Findings(c, src, tgt)
      invariant Get(r, Missing) == RenderAll(Missing, src, tgt, Flagged(Missing, src, tgt, src.order[..j]))
      invariant NonEmptyLists(r)
    {
      FlaggedStep(Missing, src, tgt, src.order, j);
      r := CheckSourceName(src, tgt, src.order[j], r);
    }
    assert src.order[..|src.order|] == src.order;
    ReportUnique(r, src, tgt);
  }

  /** The body of the loop over the source names (lines 314-316). */
  method CheckSourceName(src: Vars, tgt: Vars, name: string, result: Result) returns (r: Result)
    requires name in src.entries && NonEmptyLists(result)
    ensures NonEmptyLists(r)
    ensures Get(r, Missing) == Get(result, Missing)
              + (if Fires(Missing, src, tgt, name) then [Render(Missing, src, tgt, name)] else [])
    ensures forall c | c != Missing :: Get(r, c) == Get(result, c)
  {
    r := result;
    if name !in tgt.entries {
      var printName := PrintName(name, src.entries[name]);
      r := Append(r, Missing, Shown(printName));
    }
  }

  /** Lines 256-320 after extraction: both loops, then the defaultdict. */
  method ComparePlaceholders(src: Vars, tgt: Vars) returns (result: Result)
    requires ValidVars(src) && ValidVars(tgt)
    ensures result == Report(src, tgt)
  {
    result := CheckTargetNames(src, tgt);
    result := CheckSourceNames(src, tgt, result);
  }

  /** A name is flagged exactly when it is among the scanned names and its
      category's rule fires for it. */
  lemma {:induction false} FlaggedMembership(c: Category, src: Vars, tgt: Vars, names: seq<string>, k: string)
    ensures k in Flagged(c, src, tgt, names) <==> k in names && Fires(c, src, tgt, k)
    decreases |names|
  {
    if names != [] {
      var init := names[..|names| - 1];
      FlaggedMembership(c, src, tgt, init, k);
      assert names == init + [names[|names| - 1]];
    }
  }

  /** Filtering a list without repetitions yields one without repetitions. */
  lemma {:induction false} FlaggedNoDup(c: Category, src: Vars, tgt: Vars, names: seq<string>)
    requires forall i, j | 0 <= i < j < |names| :: names[i] != names[j]
    ensures forall i, j | 0 <= i < j < |Flagged(c, src, tgt, names)| ::
              Flagged(c, src, tgt, names)[i] != Flagged(c, src, tgt, names)[j]
    decreases |names|
  {
    if names != [] {
      var init, last := names[..|names| - 1], names[|names| - 1];
      FlaggedNoDup(c, src, tgt, init);
      FlaggedMembership(c, src, tgt, init, last);
      assert last !in init;
    }
  }

  /** `a` stands before `b` in `names`. */
  predicate Precedes(a: string, b: string, names: seq<string>)
  {
    exists p, q | 0 <= p < q < |names| :: names[p] == a && names[q] == b
  }

  /** The flagged names keep the order of the scanned ones. */
  lemma {:induction false} FlaggedInOrder(c: Category, src: Vars, tgt: Vars, names: seq<string>)
    ensures forall i, j | 0 <= i < j < |Flagged(c, src, tgt, names)| ::
              Precedes(Flagged(c, src, tgt, names)[i], Flagged(c, src, tgt, names)[j], names)
    decreases |names|
  {
    if names != [] {
      var init, last := names[..|names| - 1], names[|names| - 1];
      FlaggedInOrder(c, src, tgt, init);
      var f0, f := Flagged(c, src, tgt, init), Flagged(c, src, tgt, names);
      forall i, j | 0 <= i < j < |f| ensures Precedes(f[i], f[j], names) {
        assert f[i] == f0[i];
        if j < |f0| {
          assert f[j] == f0[j] && Precedes(f0[i], f0[j], init);
          var p, q :| 0 <= p < q < |init| && init[p] == f0[i] && init[q] == f0[j];
          assert names[p] == init[p] && names[q] == init[q];
        } else {
          assert f[j] == last;
          FlaggedMembership(c, src, tgt, init, f0[i]);
          var p :| 0 <= p < |init| && init[p] == f0[i];
          assert names[p] == init[p] && names[|names| - 1] == last;
        }
      }
    }
  }

  /** The names reported under `c`, in the order of their lists. */
  function FlaggedNames(c: Category, src: Vars, tgt: Vars): seq<string>
  {
    Flagged(c, src, tgt, Scanned(c, src, tgt))
  }

  /** Comparing a summary with itself reports nothing but what the target
      side is checked for on its own: a missing `other` and bad plural
      selectors. */
  lemma SelfComparison(vs: Vars, c: Category)
    requires c in Report(vs, vs)
    ensures c == NoOther || c == BadPlural
  {
    ReportKeys(vs, vs, c);
    var k := FlaggedNames(c, vs, vs)[0];
    FlaggedMembership(c, vs, vs, Scanned(c, vs, vs), k);
  }

  /** Which names a category reports depends on the records of the target,
      not on the order in which it first saw them. */
  lemma FlaggedIgnoresTargetOrder(c: Category, src: Vars, t1: Vars, t2: Vars, k: string)
    requires ValidVars(t1) && ValidVars(t2) && t1.entries == t2.entries
    ensures k in FlaggedNames(c, src, t1) <==> k in FlaggedNames(c, src, t2)
  {
    FlaggedMembership(c, src, t1, Scanned(c, src, t1), k);
    FlaggedMembership(c, src, t2, Scanned(c, src, t2), k);
    assert k in t1.order <==> k in t2.order by {
      assert k in t1.order <==> k in t1.entries;
      assert k in t2.order <==> k in t2.entries;
    }
    FiresReadsEntries(c, src, t1, t2, k);
  }

  /** Whether a rule fires reads only the records of the target. */
  lemma FiresReadsEntries(c: Category, src: Vars, t1: Vars, t2: Vars, k: string)
    requires t1.entries == t2.entries
    ensures Fires(c, src, t1, k) == Fires(c, src, t2, k)
  {
    assert Vars(t1.entries, t2.order) == t2;
  }

  /** Each list of the report is the rendering of its flagged names, one
      entry per name and in the same order. */
  lemma FindingsShape(c: Category, src: Vars, tgt: Vars)
    ensures |Findings(c, src, tgt)| == |FlaggedNames(c, src, tgt)|
    ensures forall i | 0 <= i < |Findings(c, src, tgt)| ::
              Findings(c, src, tgt)[i] == Render(c, src, tgt, FlaggedNames(c, src, tgt)[i])
  {
  }

  /** No category reports a name twice. */
  lemma ReportedOnce(c: Category, src: Vars, tgt: Vars)
    requires ValidVars(src) && ValidVars(tgt)
    ensures forall i, j | 0 <= i < j < |FlaggedNames(c, src, tgt)| ::
              FlaggedNames(c, src, tgt)[i] != FlaggedNames(c, src, tgt)[j]
  {
    FlaggedNoDup(c, src, tgt, Scanned(c, src, tgt));
  }

  /** `extra` reports exactly the target names the source lacks. */
  lemma ExtraExactly(src: Vars, tgt: Vars, k: string)
    requires ValidVars(tgt)
    ensures k in FlaggedNames(Extra, src, tgt) <==> k in tgt.entries && k !in src.entries
  {
    FlaggedMembership(Extra, src, tgt, tgt.order, k);
  }

  /** `missing` reports exactly the source names the target lacks. */
  lemma MissingExactly(src: Vars, tgt: Vars, k: string)
    requires ValidVars(src)
    ensures k in FlaggedNames(Missing, src, tgt) <==> k in src.entries && k !in tgt.entries
  {
    FlaggedMembership(Missing, src, tgt, src.order, k);
  }

  /** No name is both extra and missing. */
  lemma ExtraMissingDisjoint(src: Vars, tgt: Vars, k: string)
    ensures !(k in FlaggedNames(Extra, src, tgt) && k in FlaggedNames(Missing, src, tgt))
  {
    FlaggedMembership(Extra, src, tgt, tgt.order, k);
    FlaggedMembership(Missing, src, tgt, src.order, k);
  }

  /** `wrong_type`: for a name on both sides, a boolean source `is_number`
      decides by Python `!=`; otherwise the target must not have a type the
      source lacks. */
  lemma WrongTypeExactly(src: Vars, tgt: Vars, k: string)
    requires ValidVars(tgt)
    requires k in src.entries && k in tgt.entries
    ensures IsBool(src.entries[k].isNumber) ==>
              (k in FlaggedNames(WrongType, src, tgt) <==> PyNe(src.entries[k].isNumber, tgt.entries[k].isNumber))
    ensures !IsBool(src.entries[k].isNumber) ==>
              (k in FlaggedNames(WrongType, src, tgt) <==> !(tgt.entries[k].types <= src.entries[k].types))
  {
    FlaggedMembership(WrongType, src, tgt, tgt.order, k);
  }

  /** A source `False` against a target conflict is not a wrong type: in
      Python `0 == False`. */
  lemma FalseMatchesConflict(src: Vars, tgt: Vars, k: string)
    requires ValidVars(tgt)
    requires k in src.entries && k in tgt.entries
    requires src.entries[k].isNumber == F && tgt.entries[k].isNumber == Conflict
    ensures k !in FlaggedNames(WrongType, src, tgt)
  {
    FlaggedMembership(WrongType, src, tgt, tgt.order, k);
  }

  /** `no_other` reports exactly the target names with choices but without
      an `other` choice. */
  lemma NoOtherExactly(src: Vars, tgt: Vars, k: string)
    requires ValidVars(tgt)
    ensures k in FlaggedNames(NoOther, src, tgt) <==>
              k in tgt.entries && tgt.entries[k].choices != {} && "other" !in tgt.entries[k].choices
  {
    FlaggedMembership(NoOther, src, tgt, tgt.order, k);
  }

  /** `bad_plural` reports exactly the target names with bad selectors, each
      with its set of bad selectors. */
  lemma BadPluralExactly(src: Vars, tgt: Vars, k: string)
    requires ValidVars(tgt)
    ensures k in FlaggedNames(BadPlural, src, tgt) <==> k in tgt.entries && tgt.entries[k].badPlural != {}
  {
    FlaggedMembership(BadPlural, src, tgt, tgt.order, k);
  }

  /** At most one of the four tag categories reports a given name. */
  lemma TagCategoriesExclusive(src: Vars, tgt: Vars, k: string, c1: Category, c2: Category)
    requires IsTagCategory(c1) && IsTagCategory(c2) && c1 != c2
    ensures !(k in FlaggedNames(c1, src, tgt) && k in FlaggedNames(c2, src, tgt))
  {
    FlaggedMembership(c1, src, tgt, tgt.order, k);
    FlaggedMembership(c2, src, tgt, tgt.order, k);
  }

  /** When neither side has a name whose `is_tag` is True, no tag category
      reports anything. */
  lemma NoTagFindings(src: Vars, tgt: Vars, c: Category)
    requires IsTagCategory(c)
    requires forall k | k in src.entries :: src.entries[k].isTag != T
    requires forall k | k in tgt.entries :: tgt.entries[k].isTag != T
    ensures FlaggedNames(c, src, tgt) == []
  {
    if FlaggedNames(c, src, tgt) != [] {
      var k := FlaggedNames(c, src, tgt)[0];
      FlaggedMembership(c, src, tgt, tgt.order, k);
      assert false;
    }
  }

  /** The report has a key exactly for the categories with findings, so it
      is empty iff nothing was reported and never holds an empty list. */
  lemma ReportKeys(src: Vars, tgt: Vars, c: Category)
    ensures c in Report(src, tgt) <==> FlaggedNames(c, src, tgt) != []
    ensures c in Report(src, tgt) ==> Report(src, tgt)[c] == Findings(c, src, tgt) != []
  {
    EveryCategory(c);
  }

  /** The comparison never reports under `syntax`. */
  lemma NoSyntaxFindings(src: Vars, tgt: Vars)
    ensures Syntax !in Report(src, tgt)
  {
    if FlaggedNames(Syntax, src, tgt) != [] {
      FlaggedMembership(Syntax, src, tgt, tgt.order, FlaggedNames(Syntax, src, tgt)[0]);
    }
  }
}
