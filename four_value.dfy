/** The four-valued flags that the ICU MessageFormat check keeps per placeholder
    name (is_number, is_tag, is_empty). In the original they are the Python
    values None, True, False and 0; here each is a constructor of its own. */
module FourValue {

  /** Unset is Python's None (never observed), T and F a consistent
      observation, Conflict the value 0 (observed both ways). */
  datatype Four = Unset | T | F | Conflict

  function FromBool(b: bool): Four
  {
    if b then T else F
  }

  /** `isinstance(v, bool)`: only True and False are booleans (0 is an int). */
  predicate IsBool(v: Four)
  {
    v == T || v == F
  }

  /** Python truthiness of the flag: None, False and 0 are all falsy. */
  predicate Truthy(v: Four)
  {
    v == T
  }

  /** Python `==` on the underlying values: `0 == False` holds, None equals
      only None and True equals only True. */
  predicate PyEq(a: Four, b: Four)
  {
    a == b || (a == F && b == Conflict) || (a == Conflict && b == F)
  }

  predicate PyNe(a: Four, b: Four)
  {
    !PyEq(a, b)
  }

  /** Merge a new boolean observation into a flag (`updateFourValue`). */
  function UpdateFourValue(value: bool, prev: Four): (r: Four)
    ensures prev == Unset ==> r == FromBool(value)
    ensures prev == FromBool(value) ==> r == prev
    ensures prev != Unset && prev != FromBool(value) ==> r == Conflict
    ensures r != Unset
  {
    if prev == Unset then FromBool(value)
    else if PyNe(prev, FromBool(value)) then Conflict
    else prev
  }

  /** Once in conflict, a flag stays in conflict whatever it is merged with. */
  lemma ConflictAbsorbs(value: bool)
    ensures UpdateFourValue(value, Conflict) == Conflict
  {
  }

  /** The order-independent meaning of a flag: what it says about the set of
      booleans observed so far. */
  function Summarize(seen: set<bool>): (r: Four)
    ensures r == Unset <==> seen == {}
    ensures r == Conflict <==> (true in seen && false in seen)
    ensures r == T <==> seen == {true}
    ensures r == F <==> seen == {false}
  {
    BoolSets(seen);
    if seen == {} then Unset
    else if seen == {true} then T
    else if seen == {false} then F
    else Conflict
  }

  lemma BoolSets(seen: set<bool>)
    ensures seen == {} || seen == {true} || seen == {false} || seen == {true, false}
  {
    forall b: bool ensures b in seen <==> (b && true in seen) || (!b && false in seen) {
      if b { assert b == true; } else { assert b == false; }
    }
    if true in seen && false in seen {
      assert seen == {true, false};
    } else if true in seen {
      assert seen == {true};
    } else if false in seen {
      assert seen == {false};
    } else {
      assert seen == {};
    }
  }

  /** One merge step adds exactly one observation to the summarized set. */
  lemma UpdateSummarize(seen: set<bool>, value: bool)
    ensures UpdateFourValue(value, Summarize(seen)) == Summarize(seen + {value})
  {
    BoolSets(seen);
    BoolSets(seen + {value});
  }

  /** Merging a sequence of observations in order, starting from Unset. */
  function MergeAll(values: seq<bool>): Four
  {
    if values == [] then Unset
    else UpdateFourValue(values[|values| - 1], MergeAll(values[..|values| - 1]))
  }

  /** Merging depends only on which booleans were observed, not on their
      order or multiplicity. */
  lemma {:induction false} MergeAllSummarizes(values: seq<bool>)
    ensures MergeAll(values) == Summarize(set v | v in values)
  {
    if values != [] {
      var init := values[..|values| - 1];
      MergeAllSummarizes(init);
      UpdateSummarize((set v | v in init), values[|values| - 1]);
      assert (set v | v in values) == (set v | v in init) + {values[|values| - 1]} by {
        assert values == init + [values[|values| - 1]];
      }
    }
  }

  /** Hence two observation sequences with the same elements merge alike. */
  lemma MergeOrderIndependent(a: seq<bool>, b: seq<bool>)
    requires forall v :: v in a <==> v in b
    ensures MergeAll(a) == MergeAll(b)
  {
    MergeAllSummarizes(a);
    MergeAllSummarizes(b);
    var sa, sb := (set v | v in a), (set v | v in b);
    forall v ensures v in sa <==> v in sb {
      assert v in a <==> v in b;
    }
    assert sa == sb;
  }
}
