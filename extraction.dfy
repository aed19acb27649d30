/** `extractPlaceholders` (weblate/checks/icu.py:123-192): the walk over the
    AST that builds one summary record per placeholder name.

    The specification flattens the walk: ObsList lists, in visiting order,
    the observations the walk makes (a name is met, a truthy type is met, a
    selector is met), and Step applies one observation to the accumulated
    dictionary. The methods ExtractList and ExtractNode do what the Python
    code does, recursion and `for` loops included, and are proved to compute
    that fold. */
module Extraction {
  import opened IcuAst
  import opened FourValue

  /** The per-name record (`data` in the original). An absent `choices` or
      `bad_plural` key is represented by the empty set: every reader uses
      `data.get(...)` and truthiness, which treat the two alike. */
  datatype Info = Info(
    name: string,
    types: set<TType>,
    formats: set<string>,
    isNumber: Four,
    isTag: Four,
    isEmpty: Four,
    choices: set<string>,
    badPlural: set<string>)

  /** The `variables` dictionary: its entries, and its keys in insertion
      order (the order in which a Python dict iterates). */
  datatype Vars = Vars(entries: map<string, Info>, order: seq<string>)

  const NoVars: Vars := Vars(map[], [])

  /** The dictionary invariant: `order` lists each key exactly once, and
      every record carries its own key as its name. */
  predicate ValidVars(vs: Vars)
  {
    && (forall i, j | 0 <= i < j < |vs.order| :: vs.order[i] != vs.order[j])
    && (forall k | k in vs.entries :: k in vs.order)
    && (forall i | 0 <= i < |vs.order| :: vs.order[i] in vs.entries)
    && (forall k | k in vs.entries :: vs.entries[k].name == k)
  }

  function FreshInfo(name: string): Info
  {
    Info(name, {}, {}, Unset, Unset, Unset, {}, {})
  }

  /** One thing the walk learns about a named placeholder occurrence. */
  datatype Obs =
    | Seen(name: string)
    | Typed(name: string, t: TType, format: Option<string>, empty: bool)
    | Choice(name: string, ttype: Option<TType>, selector: string)

  /** The observations of a list of tokens, in visiting order. */
  function ObsList(ns: seq<Node>): seq<Obs>
    decreases ns
  {
    if |ns| == 0 then []
    else ObsList(ns[..|ns| - 1]) + ObsNode(ns[|ns| - 1])
  }

  /** Literals and nameless nodes are skipped entirely (children included). */
  function ObsNode(n: Node): seq<Obs>
    decreases n
  {
    match n
    case Lit(_) => []
    case Ph(None, _, _, _, _) => []
    case Ph(Some(k), ttype, format, options, contents) =>
      [Seen(k)]
      + (if HasType(ttype) then [Typed(k, ttype.value, format, IsEmptyContents(contents))] else [])
      + (if options.Options? then ObsOptions(k, ttype, options.subs) else [])
      + (if contents.Contents? then ObsList(contents.nodes) else [])
  }

  /** Each option: its selector first, then its sub-message. */
  function ObsOptions(k: string, ttype: Option<TType>, subs: seq<Submessage>): seq<Obs>
    decreases subs
  {
    if |subs| == 0 then []
    else
      var last := subs[|subs| - 1];
      ObsOptions(k, ttype, subs[..|subs| - 1]) + [Choice(k, ttype, last.selector)] + ObsList(last.body)
  }

  /** `variables.setdefault(name, {...})` */
  function SetDefault(vs: Vars, name: string): (r: Vars)
    ensures r.entries.Keys == vs.entries.Keys + {name}
    ensures vs.order <= r.order
    // an existing record is kept as it is
    ensures name in vs.entries ==> r == vs
    // a new name gets a fresh record and goes to the end of the order
    ensures name !in vs.entries ==> r.entries == vs.entries[name := FreshInfo(name)] && r.order == vs.order + [name]
  {
    if name in vs.entries then vs
    else Vars(vs.entries[name := FreshInfo(name)], vs.order + [name])
  }

  /** Lines 156-169: what a truthy type adds to the record. */
  function Observe(d: Info, t: TType, format: Option<string>, empty: bool): (r: Info)
    ensures r.name == d.name && r.choices == d.choices && r.badPlural == d.badPlural
    // the type is recorded, and the format when there is one
    ensures r.types == d.types + {t}
    ensures r.formats == if format.Some? then d.formats + {format.value} else d.formats
    // is_number and is_tag both merge one observation, so they are set from now on
    ensures r.isNumber == UpdateFourValue(IsNumericType(t), d.isNumber) && r.isNumber != Unset
    ensures r.isTag == UpdateFourValue(t == TagSentinel, d.isTag) && r.isTag != Unset
    // is_empty only records tags
    ensures t == TagSentinel ==> r.isEmpty == UpdateFourValue(empty, d.isEmpty) && r.isEmpty != Unset
    ensures t != TagSentinel ==> r.isEmpty == d.isEmpty
  {
    var isTag := t == TagSentinel;
    d.(types := d.types + {t},
       isNumber := UpdateFourValue(IsNumericType(t), d.isNumber),
       isTag := UpdateFourValue(isTag, d.isTag),
       isEmpty := if isTag then UpdateFourValue(empty, d.isEmpty) else d.isEmpty,
       formats := if format.Some? then d.formats + {format.value} else d.formats)
  }

  /** Lines 177-183: what one selector adds to the record. The empty plural
      selector, on which the original raises IndexError, is excluded by the
      methods' precondition; here it is simply not classified as bad. */
  function AddChoice(d: Info, ttype: Option<TType>, selector: string): (r: Info)
    ensures r.name == d.name && r.types == d.types && r.formats == d.formats
    ensures r.isNumber == d.isNumber && r.isTag == d.isTag && r.isEmpty == d.isEmpty
    // the selector is always logged
    ensures r.choices == d.choices + {selector}
    // and recorded as bad exactly when a plural type meets a bad selector
    ensures selector in r.badPlural <==>
              selector in d.badPlural || (IsPluralType(ttype) && |selector| > 0 && IsBadPluralSelector(selector))
    ensures d.badPlural <= r.badPlural <= d.badPlural + {selector}
  {
    d.(choices := d.choices + {selector},
       badPlural := if IsPluralType(ttype) && |selector| > 0 && IsBadPluralSelector(selector)
                    then d.badPlural + {selector} else d.badPlural)
  }

  /** Apply one observation to the dictionary. */
  function Step(vs: Vars, o: Obs): (r: Vars)
    ensures r.entries.Keys == vs.entries.Keys + {o.name}
    ensures vs.order <= r.order
  {
    var v := SetDefault(vs, o.name);
    match o
    case Seen(_) => v
    case Typed(k, t, format, empty) => v.(entries := v.entries[k := Observe(v.entries[k], t, format, empty)])
    case Choice(k, ttype, selector) => v.(entries := v.entries[k := AddChoice(v.entries[k], ttype, selector)])
  }

  /** Apply observations in order. */
  function StepAll(vs: Vars, obs: seq<Obs>): (r: Vars)
    ensures r.entries.Keys == vs.entries.Keys + (set o | o in obs :: o.name)
    ensures vs.order <= r.order
    decreases |obs|
  {
    if obs == [] then vs
    else
      var init, last := obs[..|obs| - 1], obs[|obs| - 1];
      NamesSnoc(obs);
      Step(StepAll(vs, init), last)
  }

  lemma NamesSnoc(obs: seq<Obs>)
    requires |obs| > 0
    ensures (set o | o in obs :: o.name) == (set o | o in obs[..|obs| - 1] :: o.name) + {obs[|obs| - 1].name}
  {
    assert obs == obs[..|obs| - 1] + [obs[|obs| - 1]];
  }

  /** The specification of `extractPlaceholders(ast)` called without a
      dictionary. */
  function Extract(ast: seq<Node>): Vars
  {
    StepAll(NoVars, ObsList(ast))
  }

  lemma {:induction false} StepAllAppend(vs: Vars, a: seq<Obs>, b: seq<Obs>)
    ensures StepAll(vs, a + b) == StepAll(StepAll(vs, a), b)
    decreases |b|
  {
    if b == [] {
      assert a + b == a;
    } else {
      var init := b[..|b| - 1];
      assert (a + b)[..|a + b| - 1] == a + init;
      assert (a + b)[|a + b| - 1] == b[|b| - 1];
      StepAllAppend(vs, a, init);
    }
  }

  lemma StepAllSingle(vs: Vars, o: Obs)
    ensures StepAll(vs, [o]) == Step(vs, o)
  {
    assert [o][..0] == [];
  }

  /** Every step keeps the dictionary invariant. */
  lemma StepValid(vs: Vars, o: Obs)
    requires ValidVars(vs)
    ensures ValidVars(Step(vs, o))
  {
    SetDefaultValid(vs, o.name);
    var v := SetDefault(vs, o.name);
    match o
    case Seen(_) =>
    case Typed(k, t, format, empty) => RecordUpdateValid(v, k, Observe(v.entries[k], t, format, empty));
    case Choice(k, ttype, selector) => RecordUpdateValid(v, k, AddChoice(v.entries[k], ttype, selector));
  }

  lemma SetDefaultValid(vs: Vars, name: string)
    requires ValidVars(vs)
    ensures ValidVars(SetDefault(vs, name))
  {
    if name !in vs.entries {
      var r := SetDefault(vs, name);
      assert name !in vs.order;
      forall i, j | 0 <= i < j < |r.order| ensures r.order[i] != r.order[j] {
        assert r.order[i] == vs.order[i];
      }
    }
  }

  /** Replacing a record by one of the same name keeps the invariant. */
  lemma RecordUpdateValid(vs: Vars, k: string, d: Info)
    requires ValidVars(vs) && k in vs.entries && d.name == k
    ensures ValidVars(vs.(entries := vs.entries[k := d]))
  {
  }

  lemma {:induction false} StepAllValid(vs: Vars, obs: seq<Obs>)
    requires ValidVars(vs)
    ensures ValidVars(StepAll(vs, obs))
    decreases |obs|
  {
    if obs != [] {
      StepAllValid(vs, obs[..|obs| - 1]);
      StepValid(StepAll(vs, obs[..|obs| - 1]), obs[|obs| - 1]);
    }
  }

  /** The summary of every AST satisfies the dictionary invariant. */
  lemma ExtractValid(ast: seq<Node>)
    ensures ValidVars(Extract(ast))
  {
    StepAllValid(NoVars, ObsList(ast));
  }

  /** `extractPlaceholders(token, variables)` on a list of tokens. */
  method ExtractList(tokens: seq<Node>, variables: Vars) returns (r: Vars)
    requires PluralSelectorsNonEmpty(tokens)
    ensures r == StepAll(variables, ObsList(tokens))
    decreases tokens
  {
    r := variables;
    for i := 0 to |tokens|
      invariant r == StepAll(variables, ObsList(tokens[..i]))
    {
      assert tokens[..i + 1][..i] == tokens[..i];
      StepAllAppend(variables, ObsList(tokens[..i]), ObsNode(tokens[i]));
      r := ExtractNode(tokens[i], r);
    }
    assert tokens[..|tokens|] == tokens;
  }

  /** `extractPlaceholders(token, variables)` on a single token. */
  method ExtractNode(token: Node, variables: Vars) returns (r: Vars)
    requires NodePluralSelectorsNonEmpty(token)
    ensures r == StepAll(variables, ObsNode(token))
    decreases token
  {
    match token
    case Lit(_) =>
      // Skip strings.
      r := variables;
    case Ph(None, _, _, _, _) =>
      // A node without a name is ignored.
      r := variables;
    case Ph(Some(name), ttype, format, options, contents) =>
      ghost var seen := [Seen(name)];
      ghost var typed :=
        if HasType(ttype) then [Typed(name, ttype.value, format, IsEmptyContents(contents))] else [];
      ghost var opts := if options.Options? then ObsOptions(name, ttype, options.subs) else [];
      ghost var inner := if contents.Contents? then ObsList(contents.nodes) else [];
      assert ObsNode(token) == seen + typed + opts + inner;

      r := variables;
      if name !in r.entries {
        r := Vars(r.entries[name := FreshInfo(name)], r.order + [name]);
      }
      assert r == Step(variables, Seen(name));
      StepAllSingle(variables, Seen(name));

      if HasType(ttype) {
        StepAllSingle(r, typed[0]);
        r := ObserveType(name, ttype.value, format, IsEmptyContents(contents), r);
      }
      StepAllAppend(variables, seen, typed);
      assert r == StepAll(variables, seen + typed);

      if options.Options? {
        r := ExtractOptions(name, ttype, options.subs, r);
        StepAllAppend(variables, seen + typed, opts);
      } else {
        assert seen + typed + opts == seen + typed;
      }
      assert r == StepAll(variables, seen + typed + opts);

      if contents.Contents? {
        r := ExtractList(contents.nodes, r);
        StepAllAppend(variables, seen + typed + opts, inner);
      } else {
        assert seen + typed + opts + inner == seen + typed + opts;
      }
  }

  /** Lines 156-169: a truthy type updates the record of `name`. */
  method ObserveType(name: string, t: TType, format: Option<string>, empty: bool, variables: Vars)
    returns (r: Vars)
    requires name in variables.entries
    ensures r == Step(variables, Typed(name, t, format, empty))
  {
    var isTag := t == TagSentinel;
    var data := variables.entries[name];
    data := data.(types := data.types + {t});
    data := data.(isNumber := UpdateFourValue(IsNumericType(t), data.isNumber));
    data := data.(isTag := UpdateFourValue(isTag, data.isTag));
    if isTag {
      data := data.(isEmpty := UpdateFourValue(empty, data.isEmpty));
    }
    if format.Some? {
      data := data.(formats := data.formats + {format.value});
    }
    assert data == Observe(variables.entries[name], t, format, empty);
    r := variables.(entries := variables.entries[name := data]);
  }

  /** Lines 177-183: one selector of `name` is logged, and checked when the
      type is a plural one. */
  method RecordSelector(name: string, ttype: Option<TType>, selector: string, variables: Vars)
    returns (r: Vars)
    requires name in variables.entries
    requires IsPluralType(ttype) ==> |selector| > 0
    ensures r == Step(variables, Choice(name, ttype, selector))
  {
    var data := variables.entries[name];
    data := data.(choices := data.choices + {selector});
    if IsPluralType(ttype) {
      if IsBadPluralSelector(selector) {
        data := data.(badPlural := data.badPlural + {selector});
      }
    }
    r := variables.(entries := variables.entries[name := data]);
  }

  /** The loop over `token['options'].items()` of lines 171-186, for the
      placeholder `name` of type `ttype`. */
  method ExtractOptions(name: string, ttype: Option<TType>, subs: seq<Submessage>, variables: Vars)
    returns (r: Vars)
    requires name in variables.entries
    requires SubsPluralSelectorsNonEmpty(ttype, subs)
    ensures r == StepAll(variables, ObsOptions(name, ttype, subs))
    decreases subs
  {
    r := variables;
    for i := 0 to |subs|
      invariant name in r.entries
      invariant r == StepAll(variables, ObsOptions(name, ttype, subs[..i]))
    {
      assert subs[..i + 1][..i] == subs[..i];
      var selector := subs[i].selector;
      ghost var before := r;
      r := RecordSelector(name, ttype, selector, r);
      StepAllSingle(before, Choice(name, ttype, selector));
      StepAllAppend(variables, ObsOptions(name, ttype, subs[..i]), [Choice(name, ttype, selector)]);
      // Process the sub-message.
      r := ExtractList(subs[i].body, r);
      StepAllAppend(variables, ObsOptions(name, ttype, subs[..i]) + [Choice(name, ttype, selector)],
                    ObsList(subs[i].body));
    }
    assert subs[..|subs|] == subs;
  }

  /** `extractPlaceholders(ast)`: a fresh dictionary filled by the walk. */
  method ExtractPlaceholders(ast: seq<Node>) returns (variables: Vars)
    requires PluralSelectorsNonEmpty(ast)
    ensures variables == Extract(ast)
    ensures ValidVars(variables)
  {
    variables := ExtractList(ast, NoVars);
    ExtractValid(ast);
  }
}
