/** Array operations the front end uses on lists: `filter`, and the
    first-occurrence de-duplication of `Array.from(new Set(...))`. */
module Sequences {

  predicate NoDuplicates<T(==)>(xs: seq<T>) {
    forall i, j :: 0 <= i < j < |xs| ==> xs[i] != xs[j]
  }

  /** `r` is `xs` with some elements left out and the others in their order:
      `r[k]` sits at position `positions[k]` of `xs`. */
  ghost predicate EmbedsAt<T>(r: seq<T>, xs: seq<T>, positions: seq<nat>) {
    |positions| == |r|
    && (forall k :: 0 <= k < |r| ==> positions[k] < |xs| && r[k] == xs[positions[k]])
    && (forall k, l :: 0 <= k < l < |r| ==> positions[k] < positions[l])
  }

  ghost predicate IsSubsequence<T>(r: seq<T>, xs: seq<T>) {
    exists positions :: EmbedsAt(r, xs, positions)
  }

  /** Putting `xs[i]` back in front of `xs[i + 1..j]` gives `xs[i..j]`. */
  lemma ConsSlice<T>(xs: seq<T>, i: nat, j: nat, rest: seq<T>)
    requires i < j <= |xs|
    ensures [xs[i]] + (xs[i + 1..j] + rest) == xs[i..j] + rest
  {
    assert xs[i..j] == [xs[i]] + xs[i + 1..j];
  }

  /** `xs.filter(keep)` */
  function Filter<T>(xs: seq<T>, keep: T -> bool): (r: seq<T>)
    ensures |r| <= |xs|
    ensures forall i :: 0 <= i < |r| ==> r[i] in xs && keep(r[i])
    ensures forall i :: 0 <= i < |xs| && keep(xs[i]) ==> xs[i] in r
  {
    if xs == [] then []
    else (if keep(xs[0]) then [xs[0]] else []) + Filter(xs[1..], keep)
  }

  function Shift(positions: seq<nat>): (r: seq<nat>)
    ensures |r| == |positions| && forall k :: 0 <= k < |r| ==> r[k] == positions[k] + 1
  {
    seq(|positions|, k requires 0 <= k < |positions| => positions[k] + 1)
  }

  lemma EmbedShift<T>(r: seq<T>, xs: seq<T>, positions: seq<nat>)
    requires xs != [] && EmbedsAt(r, xs[1..], positions)
    ensures EmbedsAt(r, xs, Shift(positions))
  {
    forall k | 0 <= k < |r|
      ensures r[k] == xs[Shift(positions)[k]]
    {
      assert r[k] == xs[1..][positions[k]];
    }
  }

  lemma EmbedCons<T>(r: seq<T>, xs: seq<T>, positions: seq<nat>)
    requires xs != [] && EmbedsAt(r, xs, Shift(positions)) && |positions| == |r|
    ensures EmbedsAt([xs[0]] + r, xs, [0] + Shift(positions))
  {
    var r' := [xs[0]] + r;
    var p' := [0] + Shift(positions);
    forall k | 0 <= k < |r'|
      ensures p'[k] < |xs| && r'[k] == xs[p'[k]]
    {
      if k > 0 {
        assert r'[k] == r[k - 1] && p'[k] == Shift(positions)[k - 1];
      }
    }
    forall k, l | 0 <= k < l < |r'|
      ensures p'[k] < p'[l]
    {
      assert p'[l] == Shift(positions)[l - 1];
      if k > 0 {
        assert p'[k] == Shift(positions)[k - 1];
      }
    }
  }

  /** The kept elements keep their order: the result is a subsequence. */
  lemma {:induction false} FilterEmbeds<T>(xs: seq<T>, keep: T -> bool) returns (positions: seq<nat>)
    ensures EmbedsAt(Filter(xs, keep), xs, positions)
  {
    if xs == [] {
      positions := [];
    } else {
      var rest := FilterEmbeds(xs[1..], keep);
      var tail := Filter(xs[1..], keep);
      EmbedShift(tail, xs, rest);
      if keep(xs[0]) {
        EmbedCons(tail, xs, rest);
        positions := [0] + Shift(rest);
        assert Filter(xs, keep) == [xs[0]] + tail;
      } else {
        positions := Shift(rest);
        assert Filter(xs, keep) == tail;
      }
    }
  }

  lemma FilterIsSubsequence<T>(xs: seq<T>, keep: T -> bool)
    ensures IsSubsequence(Filter(xs, keep), xs)
  {
    var positions := FilterEmbeds(xs, keep);
  }

  /** Each kept value appears as often as in the input, and the others not at all. */
  lemma {:induction false} FilterCounts<T>(xs: seq<T>, keep: T -> bool)
    ensures forall x :: multiset(Filter(xs, keep))[x] == if keep(x) then multiset(xs)[x] else 0
  {
    if xs != [] {
      FilterCounts(xs[1..], keep);
      assert xs == [xs[0]] + xs[1..];
      assert multiset(xs) == multiset([xs[0]]) + multiset(xs[1..]);
    }
  }

  /** When every element is kept, nothing is left out. */
  lemma {:induction false} FilterKeepsAll<T>(xs: seq<T>, keep: T -> bool)
    requires forall i :: 0 <= i < |xs| ==> keep(xs[i])
    ensures Filter(xs, keep) == xs
  {
    if xs != [] {
      FilterKeepsAll(xs[1..], keep);
    }
  }

  /** Filtering a concatenation filters each part. */
  lemma {:induction false} FilterConcat<T>(xs: seq<T>, ys: seq<T>, keep: T -> bool)
    ensures Filter(xs + ys, keep) == Filter(xs, keep) + Filter(ys, keep)
  {
    if xs != [] {
      assert (xs + ys)[0] == xs[0] && (xs + ys)[1..] == xs[1..] + ys;
      FilterConcat(xs[1..], ys, keep);
      assert Filter(xs + ys, keep)
        == (if keep(xs[0]) then [xs[0]] else []) + Filter(xs[1..] + ys, keep);
    } else {
      assert xs + ys == ys;
    }
  }

  /** A list with an element that is not kept gets strictly shorter. */
  lemma {:induction false} FilterDropsRejected<T>(xs: seq<T>, keep: T -> bool, i: nat)
    requires i < |xs| && !keep(xs[i])
    ensures |Filter(xs, keep)| < |xs|
  {
    if i > 0 {
      FilterDropsRejected(xs[1..], keep, i - 1);
    }
  }

  /** Filtering out a value from a list without duplicates keeps it free of duplicates. */
  lemma {:induction false} FilterNoDuplicates<T>(xs: seq<T>, keep: T -> bool)
    requires NoDuplicates(xs)
    ensures NoDuplicates(Filter(xs, keep))
  {
    if xs != [] {
      FilterNoDuplicates(xs[1..], keep);
      assert xs[0] !in xs[1..];
    }
  }

  /** Filtering by a stronger test is filtering the result of a weaker one. */
  lemma {:induction false} FilterNarrows<T>(xs: seq<T>, strong: T -> bool, weak: T -> bool)
    requires forall x :: strong(x) ==> weak(x)
    ensures Filter(xs, strong) == Filter(Filter(xs, weak), strong)
  {
    if xs != [] {
      FilterNarrows(xs[1..], strong, weak);
      var w := Filter(xs, weak);
      if weak(xs[0]) {
        assert w == [xs[0]] + Filter(xs[1..], weak);
        assert w[0] == xs[0] && w[1..] == Filter(xs[1..], weak);
        assert Filter(w, strong) == (if strong(xs[0]) then [xs[0]] else []) + Filter(w[1..], strong);
      } else {
        assert w == Filter(xs[1..], weak);
      }
    }
  }

  /** `xs.flat()` */
  function Flatten<T>(xss: seq<seq<T>>): (r: seq<T>)
    ensures forall i, x :: 0 <= i < |xss| && x in xss[i] ==> x in r
    ensures forall k :: 0 <= k < |r| ==> exists i :: 0 <= i < |xss| && r[k] in xss[i]
  {
    if xss == [] then []
    else
      var rest := Flatten(xss[1..]);
      assert forall k :: 0 <= k < |rest| ==> exists i :: 0 <= i < |xss| && rest[k] in xss[i] by {
        forall k | 0 <= k < |rest|
          ensures exists i :: 0 <= i < |xss| && rest[k] in xss[i]
        {
          var i :| 0 <= i < |xss[1..]| && rest[k] in xss[1..][i];
          assert rest[k] in xss[i + 1];
        }
      }
      var r := xss[0] + rest;
      assert forall k :: 0 <= k < |r| ==> exists i :: 0 <= i < |xss| && r[k] in xss[i] by {
        forall k | 0 <= k < |r|
          ensures exists i :: 0 <= i < |xss| && r[k] in xss[i]
        {
          if k < |xss[0]| {
            assert r[k] in xss[0];
          } else {
            assert r[k] == rest[k - |xss[0]|];
          }
        }
      }
      r
  }

  /** Flattening keeps order: the elements of the lists of `a` come before
      those of `b`, each list's in its own order. */
  lemma {:induction false} FlattenConcat<T>(a: seq<seq<T>>, b: seq<seq<T>>)
    ensures Flatten(a + b) == Flatten(a) + Flatten(b)
    decreases |a|
  {
    if a == [] {
      assert a + b == b;
    } else {
      assert (a + b)[1..] == a[1..] + b;
      FlattenConcat(a[1..], b);
    }
  }

  /** The flattening of one more list ends with that list. */
  lemma FlattenAppend<T>(a: seq<seq<T>>, xs: seq<T>)
    ensures Flatten(a + [xs]) == Flatten(a) + xs
  {
    FlattenConcat(a, [xs]);
    assert Flatten([xs]) == xs + Flatten([xs][1..]);
    assert Flatten([xs][1..]) == [];
  }

  /** `Array.from(new Set(xs))`: each value once, at the place where it first occurs. */
  function Dedupe<T(==)>(xs: seq<T>): (r: seq<T>)
    ensures NoDuplicates(r)
    ensures forall i :: 0 <= i < |r| ==> r[i] in xs
    ensures forall i :: 0 <= i < |xs| ==> xs[i] in r
  {
    if xs == [] then []
    else
      var r := Dedupe(xs[..|xs| - 1]);
      var last := xs[|xs| - 1];
      assert xs == xs[..|xs| - 1] + [last];
      if last in r then r else r + [last]
  }

  /** The values of `Dedupe(xs)` come in the order of their first occurrences in `xs`. */
  lemma {:induction false} DedupeOrder<T>(xs: seq<T>)
    ensures forall k, l :: 0 <= k < l < |Dedupe(xs)| ==>
      FirstIndex(xs, Dedupe(xs)[k]) < FirstIndex(xs, Dedupe(xs)[l])
  {
    if xs != [] {
      var init := xs[..|xs| - 1];
      var last := xs[|xs| - 1];
      assert xs == init + [last];
      DedupeOrder(init);
      var prev := Dedupe(init);
      var r := Dedupe(xs);
      assert r == if last in prev then prev else prev + [last];
      forall k, l | 0 <= k < l < |r|
        ensures FirstIndex(xs, r[k]) < FirstIndex(xs, r[l])
      {
        assert prev[k] in init;
        FirstIndexOfPrefix(init, last, prev[k]);
        if l < |prev| {
          assert prev[l] in init;
          FirstIndexOfPrefix(init, last, prev[l]);
        } else {
          assert r[l] == last && last !in init;
          FirstIndexOfPrefix(init, last, last);
        }
      }
    }
  }

  /** Where `x` first occurs in `xs`, or `|xs|`. */
  function FirstIndex<T(==)>(xs: seq<T>, x: T): (i: nat)
    ensures i <= |xs| && (i < |xs| <==> x in xs)
    ensures i < |xs| ==> xs[i] == x && x !in xs[..i]
  {
    if xs == [] then 0
    else if xs[0] == x then 0
    else
      var i := FirstIndex(xs[1..], x) + 1;
      assert xs[..i] == [xs[0]] + xs[1..][..i - 1];
      i
  }

  lemma {:induction false} FirstIndexOfPrefix<T>(xs: seq<T>, y: T, x: T)
    ensures x in xs ==> FirstIndex(xs + [y], x) == FirstIndex(xs, x)
    ensures x !in xs && x == y ==> FirstIndex(xs + [y], x) == |xs|
  {
    if xs != [] {
      assert (xs + [y])[1..] == xs[1..] + [y];
      FirstIndexOfPrefix(xs[1..], y, x);
    }
  }
}
