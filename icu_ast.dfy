/** The abstract syntax tree that the ICU MessageFormat parser hands to the
    check, the constants of weblate/checks/icu.py, and the selector test.
    The parser itself is not part of this model: it appears only as a
    function parameter returning a ParseResult. */
module IcuAst {

  datatype Option<+T> = None | Some(value: T)

  /** The `type` slot of a placeholder: either a type string written in the
      message (`number`, `plural`, ...) or the sentinel TAG_TYPE (-100) that
      the tag-aware parser stores on tags. The sentinel never equals a string. */
  datatype TType = Named(s: string) | TagSentinel

  /** One `selector {sub-message}` pair of a plural/select placeholder. */
  datatype Submessage = Submessage(selector: string, body: seq<Node>)

  /** The `options` key of a placeholder node: absent, or an ordered mapping
      from selector to sub-message. */
  datatype Options = NoOptions | Options(subs: seq<Submessage>)

  /** The `contents` key of a tag node: absent, or the tag's body. */
  datatype Contents = NoContents | Contents(nodes: seq<Node>)

  /** An AST element: a literal string, or a placeholder dictionary whose
      `name`, `type` and `format` keys may each be absent. */
  datatype Node =
    | Lit(text: string)
    | Ph(name: Option<string>, ttype: Option<TType>, format: Option<string>,
         options: Options, contents: Contents)

  datatype ParseError = ParseError(msg: string)

  /** What `parseICU` returns: an AST, or the syntax error it caught. */
  datatype ParseResult = Parsed(ast: seq<Node>) | Failed(err: ParseError)

  const NumericTypes: seq<string> := ["number", "plural", "selectordinal"]
  const PluralTypes: seq<string> := ["plural", "selectordinal"]
  const PluralSelectors: seq<string> := ["zero", "one", "two", "few", "many", "other"]

  /** Python truthiness of `token.get('type')`: absent and "" are falsy,
      every other string and the tag sentinel are truthy. */
  predicate HasType(t: Option<TType>)
  {
    t.Some? && t.value != Named("")
  }

  /** `ttype in NUMERIC_TYPES` */
  predicate IsNumericType(t: TType)
  {
    t.Named? && t.s in NumericTypes
  }

  /** `ttype in PLURAL_TYPES`, for a type that may be absent. */
  predicate IsPluralType(t: Option<TType>)
  {
    t.Some? && t.value.Named? && t.value.s in PluralTypes
  }

  /** `'contents' not in token or not token['contents']` */
  predicate IsEmptyContents(c: Contents)
  {
    c.NoContents? || c.nodes == []
  }

  /** `isBadPluralSelector`: a plural selector is good when it is one of the
      six plural categories or an exact-value selector starting with `=`. */
  function IsBadPluralSelector(selector: string): (bad: bool)
    requires |selector| > 0
    ensures selector in PluralSelectors ==> !bad
    ensures selector[0] == '=' ==> !bad
    ensures selector !in PluralSelectors && selector[0] != '=' ==> bad
  {
    if selector in PluralSelectors then false
    else selector[0] != '='
  }

  /** The selectors of the good-plural and bad-plural test messages. */
  lemma PluralSelectorExamples()
    ensures forall s | s in ["zero", "one", "two", "few", "many", "other", "=0", "=-12", "=391.5"]
              :: !IsBadPluralSelector(s)
    ensures IsBadPluralSelector("bad")
  {
    assert "bad" !in PluralSelectors;
  }

  /** The precondition under which the original cannot crash: every selector
      of a plural or selectordinal placeholder that the walk visits is
      non-empty (`selector[0]` raises IndexError on ""). */
  predicate PluralSelectorsNonEmpty(ns: seq<Node>)
    decreases ns
  {
    forall i | 0 <= i < |ns| :: NodePluralSelectorsNonEmpty(ns[i])
  }

  predicate NodePluralSelectorsNonEmpty(n: Node)
    decreases n
  {
    match n
    case Lit(_) => true
    case Ph(None, _, _, _, _) => true
    case Ph(Some(_), ttype, _, options, contents) =>
      (options.Options? ==> SubsPluralSelectorsNonEmpty(ttype, options.subs))
      && (contents.Contents? ==> PluralSelectorsNonEmpty(contents.nodes))
  }

  predicate SubsPluralSelectorsNonEmpty(ttype: Option<TType>, subs: seq<Submessage>)
    decreases subs
  {
    forall j | 0 <= j < |subs| ::
      (IsPluralType(ttype) ==> |subs[j].selector| > 0)
      && PluralSelectorsNonEmpty(subs[j].body)
  }

  /** Some placeholder anywhere in the tree is a tag. */
  predicate ContainsTag(ns: seq<Node>)
    decreases ns
  {
    exists i | 0 <= i < |ns| :: NodeContainsTag(ns[i])
  }

  predicate NodeContainsTag(n: Node)
    decreases n
  {
    match n
    case Lit(_) => false
    case Ph(_, ttype, _, options, contents) =>
      ttype == Some(TagSentinel)
      || (options.Options? && SubsContainTag(options.subs))
      || (contents.Contents? && ContainsTag(contents.nodes))
  }

  predicate SubsContainTag(subs: seq<Submessage>)
    decreases subs
  {
    exists j | 0 <= j < |subs| :: ContainsTag(subs[j].body)
  }
}
