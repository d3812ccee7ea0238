/** Order-preserving filtering of sequences, the model of `Array.prototype.filter`. */
module Seqs {

  /** The elements of `s` that satisfy `p`, in their original order. */
  function Filter<T>(s: seq<T>, p: T -> bool): (r: seq<T>)
    ensures |r| <= |s|
    ensures forall k :: 0 <= k < |r| ==> p(r[k])
    decreases |s|
  {
    if |s| == 0 then []
    else if p(s[0]) then [s[0]] + Filter(s[1..], p)
    else Filter(s[1..], p)
  }

  /** `idx` lists strictly increasing positions. */
  ghost predicate Increasing(idx: seq<int>) {
    forall k, l :: 0 <= k < l < |idx| ==> idx[k] < idx[l]
  }

  /** `r` is the sequence of elements of `s` taken at the increasing positions `idx`. */
  ghost predicate SelectsAt<T>(r: seq<T>, s: seq<T>, idx: seq<int>) {
    && |idx| == |r|
    && Increasing(idx)
    && (forall k :: 0 <= k < |idx| ==> 0 <= idx[k] < |s| && r[k] == s[idx[k]])
  }

  /** Adds one to every position. */
  ghost function Shift(idx: seq<int>): (r: seq<int>)
    ensures |r| == |idx|
    ensures forall k :: 0 <= k < |idx| ==> r[k] == idx[k] + 1
  {
    seq(|idx|, k requires 0 <= k < |idx| => idx[k] + 1)
  }

  /** Membership in a shifted sequence. */
  lemma ShiftMember(idx: seq<int>, i: int)
    ensures i in Shift(idx) <==> i - 1 in idx
  {
    var shifted := Shift(idx);
    if i in shifted {
      var k :| 0 <= k < |shifted| && shifted[k] == i;
      assert idx[k] == i - 1;
    }
    if i - 1 in idx {
      var k :| 0 <= k < |idx| && idx[k] == i - 1;
      assert shifted[k] == i;
    }
  }

  /** A selection of `t` from the tail of `s` is, shifted, a selection from `s`;
      with the head added in front when the head is kept. */
  lemma SelectsShift<T>(t: seq<T>, s: seq<T>, idx: seq<int>, keepHead: bool)
    requires |s| > 0
    requires SelectsAt(t, s[1..], idx)
    ensures SelectsAt(if keepHead then [s[0]] + t else t, s,
                      if keepHead then [0] + Shift(idx) else Shift(idx))
  {
    var shifted := Shift(idx);
    assert forall k :: 0 <= k < |idx| ==> t[k] == s[shifted[k]];
    if keepHead {
      var r, ix := [s[0]] + t, [0] + shifted;
      forall k | 0 <= k < |ix| ensures 0 <= ix[k] < |s| && r[k] == s[ix[k]] {
        if k > 0 {
          assert ix[k] == shifted[k - 1] && r[k] == t[k - 1];
        }
      }
    }
  }

  /** Filtering keeps exactly the positions whose element satisfies `p`, in order:
      an element is kept if and only if it passes, and the kept ones stay in order. */
  lemma {:induction false} FilterSelects<T>(s: seq<T>, p: T -> bool) returns (idx: seq<int>)
    ensures SelectsAt(Filter(s, p), s, idx)
    ensures forall i :: 0 <= i < |s| ==> (p(s[i]) <==> i in idx)
    decreases |s|
  {
    if |s| == 0 {
      idx := [];
    } else {
      var rest := FilterSelects(s[1..], p);
      SelectsShift(Filter(s[1..], p), s, rest, p(s[0]));
      idx := if p(s[0]) then [0] + Shift(rest) else Shift(rest);
      forall i | 0 <= i < |s| ensures p(s[i]) <==> i in idx {
        ShiftMember(rest, i);
        if i > 0 {
          assert s[1..][i - 1] == s[i];
        } else {
          assert forall x :: x in rest ==> x >= 0;
        }
      }
    }
  }

  /** Filtering with a predicate every element satisfies is the identity. */
  lemma {:induction false} FilterKeepsAll<T>(s: seq<T>, p: T -> bool)
    requires forall k :: 0 <= k < |s| ==> p(s[k])
    ensures Filter(s, p) == s
    decreases |s|
  {
    if |s| > 0 {
      FilterKeepsAll(s[1..], p);
      assert s == [s[0]] + s[1..];
    }
  }

  /** Filtering twice with the same predicate is filtering once. */
  lemma FilterIdempotent<T>(s: seq<T>, p: T -> bool)
    ensures Filter(Filter(s, p), p) == Filter(s, p)
  {
    FilterKeepsAll(Filter(s, p), p);
  }

  /** The positions listed by an increasing sequence are as many as its length. */
  lemma {:induction false} IncreasingCard(idx: seq<int>)
    requires Increasing(idx)
    ensures |(set k | k in idx)| == |idx|
    decreases |idx|
  {
    if |idx| > 0 {
      IncreasingCard(idx[1..]);
      assert (set k | k in idx) == {idx[0]} + (set k | k in idx[1..]);
    }
  }

  /** The positions of `s` whose element satisfies `p`. */
  ghost function PositionsWhere<T>(s: seq<T>, p: T -> bool): set<int> {
    set i | 0 <= i < |s| && p(s[i])
  }

  /** The length of a filtered sequence is the number of positions whose element passes. */
  lemma FilterCount<T>(s: seq<T>, p: T -> bool)
    ensures |Filter(s, p)| == |PositionsWhere(s, p)|
  {
    var idx := FilterSelects(s, p);
    assert PositionsWhere(s, p) == (set k | k in idx);
    IncreasingCard(idx);
  }

  /** Filtering out at least one element shortens the sequence. */
  lemma {:induction false} FilterShrinks<T>(s: seq<T>, p: T -> bool, i: int)
    requires 0 <= i < |s| && !p(s[i])
    ensures |Filter(s, p)| < |s|
    decreases |s|
  {
    if i > 0 {
      assert s[1..][i - 1] == s[i];
      FilterShrinks(s[1..], p, i - 1);
    }
  }
}
