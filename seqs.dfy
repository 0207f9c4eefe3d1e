/** Sequence facts shared by the family index and the unit grouping. */
module Seqs {

  predicate Distinct<T(==)>(s: seq<T>) {
    forall i, j :: 0 <= i < j < |s| ==> s[i] != s[j]
  }

  /**
   * `known` followed by each element of `xs` not seen before, in order of first
   * appearance: the key order of an insertion-ordered dictionary that starts
   * with the keys `known` and is then given the keys `xs` one by one.
   */
  function AppendNew<T(==,!new)>(known: seq<T>, xs: seq<T>): (r: seq<T>)
    ensures Distinct(known) ==> Distinct(r)
    ensures forall x :: x in r <==> x in known || x in xs
    ensures |known| <= |r| && r[..|known|] == known
    decreases |xs|
  {
    if xs == [] then known
    else
      var r := AppendNew(known, xs[..|xs| - 1]);
      var x := xs[|xs| - 1];
      assert xs == xs[..|xs| - 1] + [x];
      if x in r then r else r + [x]
  }

  /** Where `x` first occurs in `xs`. */
  function FirstIndex<T(==)>(xs: seq<T>, x: T): (i: nat)
    requires x in xs
    ensures i < |xs| && xs[i] == x
    ensures forall k :: 0 <= k < i ==> xs[k] != x
    decreases |xs|
  {
    if xs[0] == x then 0 else 1 + FirstIndex(xs[1..], x)
  }

  lemma FirstIndexAppend<T>(xs: seq<T>, x: T, y: T)
    requires y in xs
    ensures FirstIndex(xs + [x], y) == FirstIndex(xs, y)
  {
    var i := FirstIndex(xs, y);
    var j := FirstIndex(xs + [x], y);
    assert (xs + [x])[i] == y;
  }

  /** `AppendNew` from nothing lists the values in the order of their first occurrence. */
  lemma {:induction false} AppendNewFirstSeen<T(!new)>(xs: seq<T>)
    ensures forall i, j :: 0 <= i < j < |AppendNew([], xs)| ==>
      FirstIndex(xs, AppendNew([], xs)[i]) < FirstIndex(xs, AppendNew([], xs)[j])
    decreases |xs|
  {
    if xs != [] {
      var init := xs[..|xs| - 1];
      var x := xs[|xs| - 1];
      assert xs == init + [x];
      AppendNewFirstSeen(init);
      var r := AppendNew([], init);
      forall y | y in r ensures FirstIndex(xs, y) == FirstIndex(init, y) {
        FirstIndexAppend(init, x, y);
      }
      if x !in r {
        assert x !in init;
        assert FirstIndex(xs, x) == |init|;
        var r' := r + [x];
        forall i, j | 0 <= i < j < |r'| ensures FirstIndex(xs, r'[i]) < FirstIndex(xs, r'[j]) {
          assert r'[i] == r[i] && r[i] in r;
          assert FirstIndex(xs, r[i]) == FirstIndex(init, r[i]) < |init|;
          if j == |r| {
            assert r'[j] == x;
          } else {
            assert r'[j] == r[j] && r[j] in r;
            assert FirstIndex(xs, r[j]) == FirstIndex(init, r[j]);
            assert FirstIndex(init, r[i]) < FirstIndex(init, r[j]);
          }
        }
      }
    }
  }
}
