/** The Fisher–Yates shuffle that the slideshow, its playlist and the legacy variant all
    use. `Math.random` is replaced by the list of positions it would have produced: at
    step `i` (counting down from the last index to 1) the element at `i` is swapped
    with the one at `picks[i]`, a position in `[0, i]`. */
module Shuffle {

  /** Positions a random source could supply for a pass over `n` elements:
      `Math.floor(Math.random() * (i + 1))` always lies in `[0, i]`. */
  predicate ValidPicks(picks: seq<nat>, n: nat)
  {
    |picks| == n && forall i :: 0 <= i < n ==> picks[i] <= i
  }

  /** The destructuring swap `[arr[i], arr[j]] = [arr[j], arr[i]]`. */
  function Swap<T>(s: seq<T>, i: nat, j: nat): (r: seq<T>)
    requires i < |s| && j < |s|
    ensures |r| == |s|
  {
    s[i := s[j]][j := s[i]]
  }

  /** A swap only reorders. */
  lemma SwapPermutes<T>(s: seq<T>, i: nat, j: nat)
    requires i < |s| && j < |s|
    ensures multiset(Swap(s, i, j)) == multiset(s)
  {
  }

  /** The remaining steps `i, i - 1, ..., 1` of the shuffle loop applied to `s`. */
  function ShuffleFrom<T>(s: seq<T>, picks: seq<nat>, i: int): (r: seq<T>)
    requires ValidPicks(picks, |s|) && i < |s|
    ensures |r| == |s|
    decreases i
  {
    if i <= 0 then s
    else ShuffleFrom(Swap(s, i, picks[i]), picks, i - 1)
  }

  /** Every remaining run of steps only reorders. */
  lemma {:induction false} ShuffleFromPermutes<T>(s: seq<T>, picks: seq<nat>, i: int)
    requires ValidPicks(picks, |s|) && i < |s|
    ensures multiset(ShuffleFrom(s, picks, i)) == multiset(s)
    decreases i
  {
    if i > 0 {
      SwapPermutes(s, i, picks[i]);
      ShuffleFromPermutes(Swap(s, i, picks[i]), picks, i - 1);
    } else {
      assert ShuffleFrom(s, picks, i) == s;
    }
  }

  /** The whole shuffle: `for (let i = arr.length - 1; i > 0; i--)`. It keeps the
      length and the multiset of elements: nothing is invented or dropped. */
  function FisherYates<T>(s: seq<T>, picks: seq<nat>): (r: seq<T>)
    requires ValidPicks(picks, |s|)
    ensures |r| == |s| && multiset(r) == multiset(s)
  {
    ShuffleFromPermutes(s, picks, |s| - 1);
    ShuffleFrom(s, picks, |s| - 1)
  }

  /** The loop itself, swapping in place on a working copy of `s`; it computes
      `FisherYates` and so returns a permutation of its input. */
  method ShuffleLoop<T>(s: seq<T>, picks: seq<nat>) returns (r: seq<T>)
    requires ValidPicks(picks, |s|)
    ensures multiset(r) == multiset(s)
    ensures r == FisherYates(s, picks)
  {
    r := s;
    var i := |s| - 1;
    while i > 0
      invariant -1 <= i < |s| && |r| == |s|
      invariant ShuffleFrom(r, picks, i) == FisherYates(s, picks)
      decreases i
    {
      var j := picks[i];
      var next := r[i := r[j]][j := r[i]];
      ShuffleStep(r, picks, i);
      assert ShuffleFrom(next, picks, i - 1) == FisherYates(s, picks);
      r, i := next, i - 1;
    }
  }

  /** One turn of the loop: swapping at `i` leaves the steps from `i - 1` to do. */
  lemma ShuffleStep<T>(s: seq<T>, picks: seq<nat>, i: int)
    requires ValidPicks(picks, |s|) && 0 < i < |s|
    ensures ShuffleFrom(s[i := s[picks[i]]][picks[i] := s[i]], picks, i - 1) == ShuffleFrom(s, picks, i)
  {
  }

  /** Every ordering of the input is some run of the shuffle: for any permutation `t` of
      `s` there are valid picks that produce exactly `t`. */
  lemma {:induction false} EveryOrderReachable<T>(s: seq<T>, t: seq<T>)
    requires multiset(s) == multiset(t)
    ensures exists picks :: ValidPicks(picks, |s|) && FisherYates(s, picks) == t
  {
    assert |s| == |multiset(s)| == |multiset(t)| == |t|;
    var n := |s| - 1;
    assert s[..n + 1] == s && t[..n + 1] == t;
    assert s[n + 1..] == t[n + 1..];
    var picks := ReachingPicks(s, t, n);
    ReachingPicksWork(s, t, n, picks);
  }

  /** Picks for steps `i` down to 1 that arrange `s[..i+1]` as `t[..i+1]`; entries above `i`
      are zero and are not used. */
  ghost function ReachingPicks<T>(s: seq<T>, t: seq<T>, i: int): (picks: seq<nat>)
    requires |s| == |t| && -1 <= i < |s|
    requires multiset(s[..i + 1]) == multiset(t[..i + 1])
    ensures ValidPicks(picks, |s|)
    decreases i
  {
    if i <= 0 then seq(|s|, k => 0)
    else
      assert t[i] in multiset(t[..i + 1]);
      var j := IndexOf(s[..i + 1], t[i]);
      var s' := Swap(s, i, j);
      SwapKeepsPrefixMultiset(s, t, i, j);
      ReachingPicks(s', t, i - 1)[i := j]
  }

  /** A position of `x` in `s`. */
  ghost function IndexOf<T>(s: seq<T>, x: T): (j: nat)
    requires x in s
    ensures j < |s| && s[j] == x
  {
    var j :| 0 <= j < |s| && s[j] == x; j
  }

  /** Moving the element `t[i]` to position `i` leaves a prefix that is still a
      permutation of `t`'s prefix. */
  lemma SwapKeepsPrefixMultiset<T>(s: seq<T>, t: seq<T>, i: nat, j: nat)
    requires |s| == |t| && 0 < i < |s| && j <= i
    requires multiset(s[..i + 1]) == multiset(t[..i + 1])
    requires s[j] == t[i]
    ensures multiset(Swap(s, i, j)[..i + 1]) == multiset(t[..i + 1])
    ensures multiset(Swap(s, i, j)[..i]) == multiset(t[..i])
  {
    var s' := Swap(s, i, j);
    assert s'[..i + 1] == Swap(s[..i + 1], i, j);
    assert s'[..i + 1] == s'[..i] + [s'[i]];
    assert t[..i + 1] == t[..i] + [t[i]];
    assert s'[i] == t[i];
    assert multiset(s'[..i + 1]) == multiset(t[..i + 1]);
    assert multiset(s'[..i + 1]) == multiset(s'[..i]) + multiset{t[i]};
    assert multiset(t[..i + 1]) == multiset(t[..i]) + multiset{t[i]};
    assert multiset(s'[..i]) == multiset(s'[..i + 1]) - multiset{t[i]};
  }

  /** The picks built by `ReachingPicks` do produce `t`. */
  lemma {:induction false} ReachingPicksWork<T>(s: seq<T>, t: seq<T>, i: int, picks: seq<nat>)
    requires |s| == |t| && -1 <= i < |s|
    requires multiset(s[..i + 1]) == multiset(t[..i + 1])
    requires s[i + 1..] == t[i + 1..]
    requires picks == ReachingPicks(s, t, i)
    ensures ShuffleFrom(s, picks, i) == t
    decreases i
  {
    if i == -1 {
      SettledNone(s, t);
    } else if i == 0 {
      SettledOne(s, t);
    } else {
      assert t[i] in multiset(t[..i + 1]);
      var j := IndexOf(s[..i + 1], t[i]);
      var s' := Swap(s, i, j);
      SwapKeepsPrefixMultiset(s, t, i, j);
      var inner := ReachingPicks(s', t, i - 1);
      assert picks == inner[i := j];
      SwapSettlesSuffix(s, t, i, j);
      ReachingPicksWork(s', t, i - 1, inner);
      ShuffleFromIgnoresLaterPicks(s', inner, picks, i - 1);
    }
  }

  /** With no unsettled position left, the two sequences agree. */
  lemma SettledNone<T>(s: seq<T>, t: seq<T>)
    requires |s| == |t|
    requires s[0..] == t[0..]
    ensures s == t
  {
    assert s[0..] == s;
    assert t[0..] == t;
  }

  /** With one unsettled position left, it holds the one element remaining, so the two
      sequences agree. */
  lemma SettledOne<T>(s: seq<T>, t: seq<T>)
    requires |s| == |t| && 0 < |s|
    requires multiset(s[..1]) == multiset(t[..1])
    requires s[1..] == t[1..]
    ensures s == t
  {
    assert s[..1] == [s[0]];
    assert t[..1] == [t[0]];
    assert s[0] in multiset(t[..1]);
    assert s[0] == t[0];
    assert s == [s[0]] + s[1..];
    assert t == [t[0]] + t[1..];
  }

  /** After moving `t[i]` into position `i`, the suffix from `i` agrees with `t`. */
  lemma SwapSettlesSuffix<T>(s: seq<T>, t: seq<T>, i: nat, j: nat)
    requires |s| == |t| && 0 < i < |s| && j <= i
    requires s[i + 1..] == t[i + 1..]
    requires s[j] == t[i]
    ensures Swap(s, i, j)[i..] == t[i..]
  {
    var s' := Swap(s, i, j);
    assert s'[i..] == [s'[i]] + s'[i + 1..];
    assert t[i..] == [t[i]] + t[i + 1..];
    assert s'[i + 1..] == s[i + 1..];
  }

  /** The shuffle steps `i` down to 1 read only `picks[..i + 1]`. */
  lemma {:induction false} ShuffleFromIgnoresLaterPicks<T>(s: seq<T>, p: seq<nat>, q: seq<nat>, i: int)
    requires ValidPicks(p, |s|) && ValidPicks(q, |s|) && i < |s|
    requires forall k :: 0 <= k <= i ==> p[k] == q[k]
    ensures ShuffleFrom(s, p, i) == ShuffleFrom(s, q, i)
    decreases i
  {
    if i > 0 {
      assert p[i] == q[i];
      ShuffleFromIgnoresLaterPicks(Swap(s, i, p[i]), p, q, i - 1);
    } else {
      assert ShuffleFrom(s, p, i) == s == ShuffleFrom(s, q, i);
    }
  }
}
