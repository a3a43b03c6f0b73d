/** Sequence vocabulary shared by the audio and caption models. */
module Sequences {

  /** The pieces joined in order. */
  function Flatten<T>(pieces: seq<seq<T>>): (whole: seq<T>) {
    if pieces == [] then [] else pieces[0] + Flatten(pieces[1..])
  }

  lemma Associative<T>(a: seq<T>, b: seq<T>, c: seq<T>)
    ensures a + (b + c) == a + b + c
  {
  }

  lemma {:induction false} FlattenConcat<T>(a: seq<seq<T>>, b: seq<seq<T>>)
    ensures Flatten(a + b) == Flatten(a) + Flatten(b)
  {
    if a == [] {
      assert a + b == b;
    } else {
      FlattenConcat(a[1..], b);
      var rest := a[1..] + b;
      assert a + b == [a[0]] + rest;
      assert Flatten(a + b) == a[0] + Flatten(rest);
      Associative(a[0], Flatten(a[1..]), Flatten(b));
    }
  }

  lemma FlattenCons<T>(head: seq<T>, tail: seq<seq<T>>)
    ensures Flatten([head] + tail) == head + Flatten(tail)
  {
    assert ([head] + tail)[1..] == tail;
  }

  lemma FlattenSnoc<T>(front: seq<seq<T>>, last: seq<T>)
    ensures Flatten(front + [last]) == Flatten(front) + last
  {
    FlattenConcat(front, [last]);
    FlattenSingleton(last);
  }

  /** A common beginning does not affect which text is a prefix of which. */
  lemma PrefixConcat<T>(a: seq<T>, b: seq<T>, c: seq<T>)
    requires b <= c
    ensures a + b <= a + c
  {
    assert a + c == a + b + c[|b|..];
  }

  lemma FlattenSingleton<T>(piece: seq<T>)
    ensures Flatten([piece]) == piece
  {
    assert [piece][1..] == [];
  }

  /** `picks` are positions in `b`, in order, where the elements of `a` are found. */
  ghost predicate Picks<T>(a: seq<T>, b: seq<T>, picks: seq<nat>) {
    && |picks| == |a|
    && (forall i, j :: 0 <= i < j < |picks| ==> picks[i] < picks[j])
    && (forall i :: 0 <= i < |picks| ==> picks[i] < |b| && a[i] == b[picks[i]])
  }

  /** `a` is `b` with some elements dropped and the rest left in order. */
  ghost predicate Subsequence<T>(a: seq<T>, b: seq<T>) {
    exists picks: seq<nat> :: Picks(a, b, picks)
  }

  lemma EmptySubsequence<T>(a: seq<T>, b: seq<T>)
    requires a == []
    ensures Subsequence(a, b)
  {
    assert Picks(a, b, []);
  }

  /** Appending to the longer sequence only, or to both, keeps the relation. */
  lemma SubsequenceAppend<T>(a: seq<T>, b: seq<T>, x: T)
    requires Subsequence(a, b)
    ensures Subsequence(a, b + [x])
    ensures Subsequence(a + [x], b + [x])
  {
    var picks: seq<nat> :| Picks(a, b, picks);
    assert Picks(a, b + [x], picks);
    assert Picks(a + [x], b + [x], picks + [|b|]);
  }

  lemma SubsequenceExtend<T>(a: seq<T>, b: seq<T>, c: seq<T>)
    requires Subsequence(a, b)
    ensures Subsequence(a, b + c)
  {
    var picks: seq<nat> :| Picks(a, b, picks);
    assert Picks(a, b + c, picks);
  }

  lemma SubsequenceTransitive<T>(a: seq<T>, b: seq<T>, c: seq<T>)
    requires Subsequence(a, b) && Subsequence(b, c)
    ensures Subsequence(a, c)
  {
    var p: seq<nat> :| Picks(a, b, p);
    var q: seq<nat> :| Picks(b, c, q);
    assert Picks(a, c, seq(|p|, i requires 0 <= i < |p| => q[p[i]]));
  }

  /** Cutting the shorter sequence keeps the relation. */
  lemma SubsequenceCut<T>(a: seq<T>, b: seq<T>, c: seq<T>)
    requires Subsequence(a + b, c)
    ensures Subsequence(a, c)
  {
    var picks: seq<nat> :| Picks(a + b, c, picks);
    var cut := picks[..|a|];
    forall i | 0 <= i < |cut| ensures cut[i] < |c| && a[i] == c[cut[i]] {
      assert (a + b)[i] == a[i];
    }
    assert Picks(a, c, cut);
  }

  lemma SubsequenceMembers<T>(a: seq<T>, b: seq<T>)
    requires Subsequence(a, b)
    ensures forall x :: x in a ==> x in b
  {
    var picks: seq<nat> :| Picks(a, b, picks);
    forall x | x in a ensures x in b {
      var i :| 0 <= i < |a| && a[i] == x;
      assert b[picks[i]] == x;
    }
  }

  lemma {:induction false} PicksAreSpread<T>(a: seq<T>, b: seq<T>, picks: seq<nat>, i: nat)
    requires Picks(a, b, picks) && i < |picks|
    ensures i <= picks[i] <= |b| - (|a| - i)
    decreases |picks| - i
  {
    PickIsLate(picks, i);
    if i + 1 == |picks| {
    } else {
      PicksAreSpread(a, b, picks, i + 1);
    }
  }

  lemma {:induction false} PickIsLate(picks: seq<nat>, i: nat)
    requires forall i, j :: 0 <= i < j < |picks| ==> picks[i] < picks[j]
    requires i < |picks|
    ensures i <= picks[i]
  {
    if i == 0 {
    } else {
      PickIsLate(picks, i - 1);
    }
  }

  /** A subsequence is never longer than the whole, and as long only if nothing was dropped. */
  lemma SubsequenceLength<T>(a: seq<T>, b: seq<T>)
    requires Subsequence(a, b)
    ensures |a| <= |b|
    ensures |a| == |b| ==> a == b
  {
    var picks: seq<nat> :| Picks(a, b, picks);
    if a != [] {
      PicksAreSpread(a, b, picks, 0);
    }
    forall i | 0 <= i < |a| && |a| == |b| ensures a[i] == b[i] {
      PicksAreSpread(a, b, picks, i);
    }
  }
}
