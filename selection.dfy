/**
 * The comprehension `[i for i, x in enumerate(xs) if keep(x)]` and the
 * list of elements it picks out, stated once and used both for the
 * marker rows of one run and for the allowed EEG channels.
 */
module Selection {

  ghost predicate StrictlyIncreasing(idx: seq<nat>) {
    forall a, b :: 0 <= a < b < |idx| ==> idx[a] < idx[b]
  }

  /** `idx` lists, in increasing order, exactly the positions of `xs` whose element satisfies `keep`. */
  ghost predicate SelectsExactly<A>(xs: seq<A>, keep: A -> bool, idx: seq<nat>) {
    && StrictlyIncreasing(idx)
    && (forall j :: 0 <= j < |idx| ==> idx[j] < |xs| && keep(xs[idx[j]]))
    && (forall i :: 0 <= i < |xs| && keep(xs[i]) ==> i in idx)
  }

  /** The positions of `xs` whose element satisfies `keep`, in the order of `xs`. */
  function KeptIndices<A>(xs: seq<A>, keep: A -> bool): (idx: seq<nat>)
    ensures SelectsExactly(xs, keep, idx)
  {
    if xs == [] then []
    else
      var init := KeptIndices(xs[..|xs| - 1], keep);
      assert forall i :: 0 <= i < |xs| - 1 ==> xs[..|xs| - 1][i] == xs[i];
      if keep(xs[|xs| - 1]) then init + [|xs| - 1] else init
  }

  /** The elements of `xs` at the positions `idx`, in the order of `idx`. */
  function Gather<A>(xs: seq<A>, idx: seq<nat>): (ys: seq<A>)
    requires forall j :: 0 <= j < |idx| ==> idx[j] < |xs|
    ensures |ys| == |idx|
  {
    seq(|idx|, j requires 0 <= j < |idx| => xs[idx[j]])
  }

  /** Two increasing index lists with the same members are the same list. */
  lemma {:induction false} IncreasingDeterminedByMembers(a: seq<nat>, b: seq<nat>)
    requires StrictlyIncreasing(a) && StrictlyIncreasing(b)
    requires forall i :: i in a <==> i in b
    ensures a == b
    decreases |a|
  {
    assert a == [] ==> b == [] by { if b != [] { assert b[0] in b; } }
    assert b == [] ==> a == [] by { if a != [] { assert a[0] in a; } }
    if a != [] && b != [] {
      assert a[0] in b && b[0] in a;
      assert a[0] == b[0];
      forall i ensures i in a[1..] <==> i in b[1..] {
        assert i in a[1..] <==> i in a && i != a[0];
        assert i in b[1..] <==> i in b && i != b[0];
      }
      IncreasingDeterminedByMembers(a[1..], b[1..]);
      assert a == [a[0]] + a[1..] && b == [b[0]] + b[1..];
    }
  }

  /** `SelectsExactly` leaves no freedom: `KeptIndices` is the only list that meets it. */
  lemma SelectionIsUnique<A>(xs: seq<A>, keep: A -> bool, idx: seq<nat>)
    requires SelectsExactly(xs, keep, idx)
    ensures idx == KeptIndices(xs, keep)
  {
    var kept := KeptIndices(xs, keep);
    forall i ensures i in idx <==> i in kept {
      if i in idx {
        var j :| 0 <= j < |idx| && idx[j] == i;
      }
      if i in kept {
        var j :| 0 <= j < |kept| && kept[j] == i;
      }
    }
    IncreasingDeterminedByMembers(idx, kept);
  }

  /** The members of an increasing list are as many as its entries. */
  lemma {:induction false} IncreasingMembersCount(idx: seq<nat>)
    requires StrictlyIncreasing(idx)
    ensures |Members(idx)| == |idx|
  {
    if idx != [] {
      var init, last := idx[..|idx| - 1], idx[|idx| - 1];
      IncreasingMembersCount(init);
      assert Members(idx) == Members(init) + {last} by {
        assert idx == init + [last];
      }
      assert last !in Members(init) by {
        forall i | i in init ensures i < last {
          var j :| 0 <= j < |init| && init[j] == i;
        }
      }
    }
  }

  function Members(idx: seq<nat>): set<nat> {
    set i | i in idx
  }

  /** The positions of `xs` whose element satisfies `keep`, as a set. */
  function Satisfying<A>(xs: seq<A>, keep: A -> bool): set<nat> {
    set i: nat | i < |xs| && keep(xs[i])
  }

  /** As many positions are kept as there are elements that satisfy `keep`. */
  lemma KeptCount<A>(xs: seq<A>, keep: A -> bool)
    ensures |KeptIndices(xs, keep)| == |Satisfying(xs, keep)|
  {
    var idx := KeptIndices(xs, keep);
    assert Members(idx) == Satisfying(xs, keep);
    IncreasingMembersCount(idx);
  }

  /** Appending one element extends the kept positions by that element's position, if it is kept. */
  lemma KeptIndicesSnoc<A>(xs: seq<A>, x: A, keep: A -> bool)
    ensures KeptIndices(xs + [x], keep)
         == KeptIndices(xs, keep) + (if keep(x) then [|xs|] else [])
  {
    assert (xs + [x])[..|xs|] == xs;
  }

  /** Gathering from a longer list by old indices, plus possibly the new last index. */
  lemma GatherSnoc<A>(xs: seq<A>, x: A, idx: seq<nat>, extend: bool)
    requires forall j :: 0 <= j < |idx| ==> idx[j] < |xs|
    ensures Gather(xs + [x], idx + (if extend then [|xs|] else []))
         == Gather(xs, idx) + (if extend then [x] else [])
  {
  }

  /** Gathering every position, in order, gives the sequence back. */
  lemma GatherAll<A>(xs: seq<A>, idx: seq<nat>)
    requires |idx| == |xs| && forall j :: 0 <= j < |idx| ==> idx[j] == j
    ensures Gather(xs, idx) == xs
  {
  }
}
