/**
 * The option indices of a resolved field: a fold over a sequence of options
 * into a finite map from a key of each option to a value of it, where an
 * option later in the sequence overwrites an earlier one with the same key.
 */
module OptionIndex {

  /** No option after position `i` has the same key as the one at `i`. */
  ghost predicate LastWithKey<T>(xs: seq<T>, key: T -> string, i: int)
    requires 0 <= i < |xs|
  {
    forall j :: i < j < |xs| ==> key(xs[j]) != key(xs[i])
  }

  /**
   * `m` indexes `xs`: its keys are exactly the keys of the options, and each
   * key maps to the value of the last option that has that key.
   */
  ghost predicate IndexesLastWins<T>(xs: seq<T>, key: T -> string, value: T -> string, m: map<string, string>)
  {
    && m.Keys == (set i | 0 <= i < |xs| :: key(xs[i]))
    && forall i :: 0 <= i < |xs| && LastWithKey(xs, key, i) ==>
         key(xs[i]) in m && m[key(xs[i])] == value(xs[i])
  }

  /** `xs.reduce((acc, x) => ({...acc, [key(x)]: value(x)}), {})` */
  function Index<T>(xs: seq<T>, key: T -> string, value: T -> string): (m: map<string, string>)
    ensures IndexesLastWins(xs, key, value, m)
    decreases |xs|
  {
    if xs == [] then map[]
    else
      var acc := Index(xs[..|xs| - 1], key, value);
      IndexStep(xs, key, value, acc);
      acc[key(xs[|xs| - 1]) := value(xs[|xs| - 1])]
  }

  /** One step of the fold: writing the last option over an index of the others indexes them all. */
  lemma IndexStep<T>(xs: seq<T>, key: T -> string, value: T -> string, acc: map<string, string>)
    requires xs != []
    requires IndexesLastWins(xs[..|xs| - 1], key, value, acc)
    ensures IndexesLastWins(xs, key, value, acc[key(xs[|xs| - 1]) := value(xs[|xs| - 1])])
  {
    var init := xs[..|xs| - 1];
    var m := acc[key(xs[|xs| - 1]) := value(xs[|xs| - 1])];
    assert forall i :: 0 <= i < |init| ==> init[i] == xs[i];
    forall k | k in m.Keys ensures k in (set i | 0 <= i < |xs| :: key(xs[i])) {
      if k != key(xs[|xs| - 1]) {
        var i :| 0 <= i < |init| && key(init[i]) == k;
        assert key(xs[i]) == k;
      }
    }
    forall k | k in (set i | 0 <= i < |xs| :: key(xs[i])) ensures k in m.Keys {
      var i :| 0 <= i < |xs| && key(xs[i]) == k;
      if i < |init| {
        assert key(init[i]) == k;
      }
    }
    forall i | 0 <= i < |xs| && LastWithKey(xs, key, i)
      ensures key(xs[i]) in m && m[key(xs[i])] == value(xs[i])
    {
      if i < |init| {
        assert LastWithKey(init, key, i);
      }
    }
  }

  /** Every key of the options has a last option carrying it. */
  lemma {:induction false} LastIndexOf<T>(xs: seq<T>, key: T -> string, k: string) returns (i: int)
    requires k in (set j | 0 <= j < |xs| :: key(xs[j]))
    ensures 0 <= i < |xs| && key(xs[i]) == k && LastWithKey(xs, key, i)
    decreases |xs|
  {
    if key(xs[|xs| - 1]) == k {
      i := |xs| - 1;
    } else {
      var init := xs[..|xs| - 1];
      var j :| 0 <= j < |xs| && key(xs[j]) == k;
      assert key(init[j]) == k;
      i := LastIndexOf(init, key, k);
      assert init[i] == xs[i];
      forall j' | i < j' < |xs| ensures key(xs[j']) != key(xs[i]) {
        if j' < |init| {
          assert init[j'] == xs[j'];
        }
      }
    }
  }

  /**
   * The last-write-wins description determines the index: any two maps that
   * index the same options with the same key and value are equal, so `Index`
   * is the only map that meets it.
   */
  lemma {:induction false} IndexesLastWinsUnique<T>(xs: seq<T>, key: T -> string, value: T -> string,
                                                    m1: map<string, string>, m2: map<string, string>)
    requires IndexesLastWins(xs, key, value, m1)
    requires IndexesLastWins(xs, key, value, m2)
    ensures m1 == m2
  {
    forall k | k in m1.Keys ensures m1[k] == m2[k] {
      var i := LastIndexOf(xs, key, k);
    }
  }
}
