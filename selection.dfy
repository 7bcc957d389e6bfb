/**
 * Keeping some elements of a sequence and transforming them, in order: the
 * shape of a loop that appends `f(x)` for each `x` it does not `continue` past.
 */
module Selection {

  /** `f(x)` for each `x` of `xs` with `keep(x)`, in the order of `xs`. */
  function Select<T, U>(xs: seq<T>, keep: T -> bool, f: T -> U): seq<U>
  {
    if xs == [] then []
    else
      var n := |xs| - 1;
      Select(xs[..n], keep, f) + (if keep(xs[n]) then [f(xs[n])] else [])
  }

  /** The indices of the kept elements, in increasing order. */
  function Kept<T>(xs: seq<T>, keep: T -> bool): seq<nat>
  {
    if xs == [] then []
    else
      var n := |xs| - 1;
      Kept(xs[..n], keep) + (if keep(xs[n]) then [n] else [])
  }

  /** One more element extends the output by its image exactly when it is kept. */
  lemma SelectStep<T, U>(xs: seq<T>, i: nat, keep: T -> bool, f: T -> U)
    requires i < |xs|
    ensures Select(xs[..i + 1], keep, f) == Select(xs[..i], keep, f) + (if keep(xs[i]) then [f(xs[i])] else [])
  {
    assert xs[..i + 1][..i] == xs[..i];
  }

  /** Elements are handled one at a time: selecting from a concatenation concatenates the selections. */
  lemma {:induction false} SelectAppend<T, U>(a: seq<T>, b: seq<T>, keep: T -> bool, f: T -> U)
    ensures Select(a + b, keep, f) == Select(a, keep, f) + Select(b, keep, f)
    decreases |b|
  {
    if b == [] {
      assert a + b == a;
    } else {
      var b' := b[..|b| - 1];
      assert (a + b)[..|a + b| - 1] == a + b';
      assert (a + b)[|a + b| - 1] == b[|b| - 1];
      SelectAppend(a, b', keep, f);
    }
  }

  /** The kept indices are in range, point at kept elements and strictly increase. */
  lemma {:induction false} KeptOrdered<T>(xs: seq<T>, keep: T -> bool)
    ensures forall k :: 0 <= k < |Kept(xs, keep)| ==> Kept(xs, keep)[k] < |xs|
    ensures forall k :: 0 <= k < |Kept(xs, keep)| ==> keep(xs[Kept(xs, keep)[k]])
    ensures forall k1, k2 :: 0 <= k1 < k2 < |Kept(xs, keep)| ==> Kept(xs, keep)[k1] < Kept(xs, keep)[k2]
  {
    if xs != [] {
      var n := |xs| - 1;
      var idx0 := Kept(xs[..n], keep);
      var idx := Kept(xs, keep);
      KeptOrdered(xs[..n], keep);
      forall k | 0 <= k < |idx| ensures idx[k] < |xs| && keep(xs[idx[k]]) {
        if k < |idx0| {
          assert idx[k] == idx0[k] && xs[..n][idx0[k]] == xs[idx0[k]];
        }
      }
      forall k1, k2 | 0 <= k1 < k2 < |idx| ensures idx[k1] < idx[k2] {
        assert idx[k1] == idx0[k1] < n;
      }
    }
  }

  /** Every kept element has its index listed, and no other. */
  lemma {:induction false} KeptComplete<T>(xs: seq<T>, keep: T -> bool)
    ensures forall j :: 0 <= j < |xs| ==> (keep(xs[j]) <==> j in Kept(xs, keep))
  {
    if xs != [] {
      var n := |xs| - 1;
      var init := xs[..n];
      KeptComplete(init, keep);
      KeptOrdered(init, keep);
      var idx0 := Kept(init, keep);
      var idx := Kept(xs, keep);
      forall j | 0 <= j < |xs| ensures keep(xs[j]) <==> j in idx {
        if j < n {
          assert xs[j] == init[j];
          assert j in idx <==> j in idx0;
        } else if keep(xs[j]) {
          assert idx[|idx| - 1] == j;
        } else {
          assert idx == idx0;
          KeptOrdered(init, keep);
        }
      }
    }
  }

  /** Output `k` is the image of the element at the `k`-th kept index. */
  lemma {:induction false} SelectAt<T, U>(xs: seq<T>, keep: T -> bool, f: T -> U)
    ensures |Select(xs, keep, f)| == |Kept(xs, keep)|
    ensures forall k :: 0 <= k < |Kept(xs, keep)| ==> Kept(xs, keep)[k] < |xs| && Select(xs, keep, f)[k] == f(xs[Kept(xs, keep)[k]])
  {
    KeptOrdered(xs, keep);
    if xs != [] {
      var n := |xs| - 1;
      SelectAt(xs[..n], keep, f);
      assert forall k :: 0 <= k < n ==> xs[..n][k] == xs[k];
    }
  }

  /**
   * The output is a subsequence of the input, transformed: output `k` comes
   * from the element at the `k`-th kept index, the indices strictly increase
   * (no reordering, no merging), and an element is used exactly when it is kept.
   */
  lemma IsSubsequence<T, U>(xs: seq<T>, keep: T -> bool, f: T -> U)
    ensures |Select(xs, keep, f)| == |Kept(xs, keep)|
    ensures forall k :: 0 <= k < |Kept(xs, keep)| ==> Kept(xs, keep)[k] < |xs|
    ensures forall k :: 0 <= k < |Kept(xs, keep)| ==>
      keep(xs[Kept(xs, keep)[k]]) && Select(xs, keep, f)[k] == f(xs[Kept(xs, keep)[k]])
    ensures forall k1, k2 :: 0 <= k1 < k2 < |Kept(xs, keep)| ==> Kept(xs, keep)[k1] < Kept(xs, keep)[k2]
    ensures forall j :: 0 <= j < |xs| ==> (keep(xs[j]) <==> j in Kept(xs, keep))
  {
    KeptOrdered(xs, keep);
    KeptComplete(xs, keep);
    SelectAt(xs, keep, f);
  }

  /** When every element is kept, the output is the image of every element, in order. */
  lemma {:induction false} SelectAll<T, U>(xs: seq<T>, keep: T -> bool, f: T -> U)
    requires forall j :: 0 <= j < |xs| ==> keep(xs[j])
    ensures |Select(xs, keep, f)| == |xs|
    ensures forall j :: 0 <= j < |xs| ==> Select(xs, keep, f)[j] == f(xs[j])
  {
    if xs != [] {
      var n := |xs| - 1;
      assert forall j :: 0 <= j < n ==> xs[..n][j] == xs[j];
      SelectAll(xs[..n], keep, f);
    }
  }

  /** Two kept elements give their two images, in order. */
  lemma SelectPair<T, U>(a: T, b: T, keep: T -> bool, f: T -> U)
    requires keep(a) && keep(b)
    ensures Select([a, b], keep, f) == [f(a), f(b)]
  {
    assert [a, b][..1] == [a] && [a, b][1] == b;
    assert [a][..0] == [] && [a][0] == a;
    assert Select([a], keep, f) == [f(a)];
  }
}
