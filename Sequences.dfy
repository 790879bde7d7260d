/** The array operations of JavaScript that the components use, over Dafny sequences. */
module Sequences {

  /** `xs.filter(keep)`: the elements of `xs` for which `keep` holds, in their original order. */
  function Filter<T(!new)>(xs: seq<T>, keep: T -> bool): (r: seq<T>)
    ensures |r| <= |xs|
    ensures forall x :: x in r <==> x in xs && keep(x)
  {
    if xs == [] then [] else (if keep(xs[0]) then [xs[0]] else []) + Filter(xs[1..], keep)
  }

  /** No element occurs twice. */
  predicate NoDuplicates<T(==)>(xs: seq<T>) {
    forall i, j :: 0 <= i < j < |xs| ==> xs[i] != xs[j]
  }

  /**
   * `r` is the selection of `xs` at the strictly ascending indices `idx`:
   * `r` is a sublist of `xs` in its original order.
   */
  ghost predicate Selects<T>(xs: seq<T>, idx: seq<nat>, r: seq<T>) {
    && |idx| == |r|
    && (forall k :: 0 <= k < |idx| ==> idx[k] < |xs| && r[k] == xs[idx[k]])
    && (forall k, l :: 0 <= k < l < |idx| ==> idx[k] < idx[l])
  }

  /**
   * `Filter(xs, keep)` is exactly the selection of `xs` at the ascending
   * indices whose element satisfies `keep`: nothing is reordered, merged
   * or dropped.  The indices are returned as a witness.
   */
  lemma {:induction false} FilterIsOrderedSelection<T(!new)>(xs: seq<T>, keep: T -> bool) returns (idx: seq<nat>)
    ensures Selects(xs, idx, Filter(xs, keep))
    ensures forall i :: 0 <= i < |xs| && keep(xs[i]) ==> i in idx
  {
    if xs == [] {
      idx := [];
    } else {
      var rest := FilterIsOrderedSelection(xs[1..], keep);
      var tail := Filter(xs[1..], keep);
      var shifted := Shifted(rest);
      SelectsShifted(xs, rest, tail);
      ShiftedCovers(xs, keep, rest);
      if keep(xs[0]) {
        idx := [0] + shifted;
        assert Filter(xs, keep) == [xs[0]] + tail;
        SelectsFirst(xs, shifted, tail);
        forall i | 0 <= i < |xs| && keep(xs[i]) ensures i in idx {
          if i > 0 { assert i in shifted; }
        }
      } else {
        idx := shifted;
        assert Filter(xs, keep) == tail;
        forall i | 0 <= i < |xs| && keep(xs[i]) ensures i in idx {
          assert i != 0;
        }
      }
    }
  }

  /** Every index of `idx` moved one place to the right. */
  function Shifted(idx: seq<nat>): (r: seq<nat>)
    ensures |r| == |idx|
    ensures forall k :: 0 <= k < |r| ==> r[k] == idx[k] + 1
  {
    seq(|idx|, k requires 0 <= k < |idx| => idx[k] + 1)
  }

  /** A selection of the tail of `xs` is a selection of `xs` at the shifted indices. */
  lemma SelectsShifted<T>(xs: seq<T>, idx: seq<nat>, r: seq<T>)
    requires xs != [] && Selects(xs[1..], idx, r)
    ensures Selects(xs, Shifted(idx), r)
    ensures forall k :: 0 <= k < |idx| ==> Shifted(idx)[k] >= 1
  {
    var sh := Shifted(idx);
    forall k | 0 <= k < |sh| ensures sh[k] < |xs| && r[k] == xs[sh[k]] {
      assert r[k] == xs[1..][idx[k]];
    }
  }

  /** Shifting the kept indices of the tail of `xs` gives the kept indices of `xs` past the first. */
  lemma ShiftedCovers<T>(xs: seq<T>, keep: T -> bool, idx: seq<nat>)
    requires xs != []
    requires forall i :: 0 <= i < |xs[1..]| && keep(xs[1..][i]) ==> i in idx
    ensures forall i :: 1 <= i < |xs| && keep(xs[i]) ==> i in Shifted(idx)
  {
    var sh := Shifted(idx);
    forall i | 1 <= i < |xs| && keep(xs[i]) ensures i in sh {
      assert xs[1..][i - 1] == xs[i];
      var k :| 0 <= k < |idx| && idx[k] == i - 1;
      assert sh[k] == i;
    }
  }

  /** Selecting the first element of `xs` ahead of a selection that avoids it. */
  lemma SelectsFirst<T>(xs: seq<T>, idx: seq<nat>, r: seq<T>)
    requires xs != [] && Selects(xs, idx, r)
    requires forall k :: 0 <= k < |idx| ==> idx[k] >= 1
    ensures Selects(xs, [0] + idx, [xs[0]] + r)
  {
    var idx', r' := [0] + idx, [xs[0]] + r;
    forall k | 0 <= k < |idx'| ensures idx'[k] < |xs| && r'[k] == xs[idx'[k]] {
      if k > 0 { assert idx'[k] == idx[k - 1] && r'[k] == r[k - 1]; }
    }
    forall k, l | 0 <= k < l < |idx'| ensures idx'[k] < idx'[l] {
      assert idx'[l] == idx[l - 1];
      if k > 0 { assert idx'[k] == idx[k - 1]; }
    }
  }

  /** Filtering a concatenation filters each part. */
  lemma {:induction false} FilterConcat<T(!new)>(a: seq<T>, b: seq<T>, keep: T -> bool)
    ensures Filter(a + b, keep) == Filter(a, keep) + Filter(b, keep)
  {
    if a == [] {
      assert a + b == b;
    } else {
      assert (a + b)[0] == a[0];
      assert (a + b)[1..] == a[1..] + b;
      FilterConcat(a[1..], b, keep);
    }
  }

  /** A filter that rejects nothing of `xs` returns `xs` itself. */
  lemma {:induction false} FilterKeepingAll<T(!new)>(xs: seq<T>, keep: T -> bool)
    requires forall x :: x in xs ==> keep(x)
    ensures Filter(xs, keep) == xs
  {
    if xs != [] {
      assert forall x :: x in xs[1..] ==> x in xs;
      FilterKeepingAll(xs[1..], keep);
      assert [xs[0]] + xs[1..] == xs;
    }
  }

  /** A filter of a duplicate-free sequence is duplicate-free. */
  lemma {:induction false} FilterNoDuplicates<T(!new)>(xs: seq<T>, keep: T -> bool)
    requires NoDuplicates(xs)
    ensures NoDuplicates(Filter(xs, keep))
  {
    if xs != [] {
      var tail := xs[1..];
      assert NoDuplicates(tail) by {
        forall i, j | 0 <= i < j < |tail| ensures tail[i] != tail[j] {
          assert tail[i] == xs[i + 1] && tail[j] == xs[j + 1];
        }
      }
      FilterNoDuplicates(tail, keep);
      assert xs[0] !in tail by {
        forall i | 0 <= i < |tail| ensures tail[i] != xs[0] {
          assert tail[i] == xs[i + 1];
        }
      }
      var r := Filter(tail, keep);
      assert xs[0] !in r;
      if keep(xs[0]) {
        var s := [xs[0]] + r;
        forall i, j | 0 <= i < j < |s| ensures s[i] != s[j] {
          if i == 0 {
            assert s[j] == r[j - 1];
          } else {
            assert s[i] == r[i - 1] && s[j] == r[j - 1];
          }
        }
      } else {
        assert Filter(xs, keep) == [] + r;
        assert [] + r == r;
      }
    }
  }
}
