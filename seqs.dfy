/** Sequence helpers shared by the order composer and the inventory editor. */
module Seqs {

  /** The elements of `s` satisfying `p`, in their original order (LINQ's `Where(...).ToList()`). */
  function Filter<T>(s: seq<T>, p: T -> bool): (r: seq<T>)
    ensures |r| <= |s|
    ensures forall k :: 0 <= k < |r| ==> r[k] in s && p(r[k])
    ensures forall i :: 0 <= i < |s| && p(s[i]) ==> s[i] in r
  {
    if s == [] then []
    else if p(s[0]) then [s[0]] + Filter(s[1..], p)
    else Filter(s[1..], p)
  }

  /** The positions of `s` whose element satisfies `p`, in increasing order. */
  function Positions<T>(s: seq<T>, p: T -> bool): (r: seq<int>)
  {
    if s == [] then []
    else (if p(s[0]) then [0] else []) + Shifted(Positions(s[1..], p))
  }

  function Shifted(ix: seq<int>): (r: seq<int>)
  {
    seq(|ix|, k requires 0 <= k < |ix| => ix[k] + 1)
  }

  predicate StrictlyIncreasing(ix: seq<int>)
  {
    forall k, l :: 0 <= k < l < |ix| ==> ix[k] < ix[l]
  }

  /** `R` lists the elements of `s` found at the positions `P`. */
  ghost predicate Picks<T>(s: seq<T>, P: seq<int>, R: seq<T>)
  {
    |P| == |R| && forall k :: 0 <= k < |P| ==> 0 <= P[k] < |s| && R[k] == s[P[k]]
  }

  /** `Filter` keeps the elements at `Positions`, in increasing order. */
  lemma {:induction false} FilterAtPositions<T>(s: seq<T>, p: T -> bool)
    ensures |Positions(s, p)| == |Filter(s, p)|
    ensures StrictlyIncreasing(Positions(s, p))
    ensures forall k :: 0 <= k < |Positions(s, p)| ==>
              0 <= Positions(s, p)[k] < |s| && Filter(s, p)[k] == s[Positions(s, p)[k]]
  {
    if s != [] {
      var tail := s[1..];
      FilterAtPositions(tail, p);
      var ix, r := Positions(tail, p), Filter(tail, p);
      assert Picks(tail, ix, r);
      ShiftedPicks(s, ix, r);
      var sh := Shifted(ix);
      if p(s[0]) {
        assert Positions(s, p) == [0] + sh;
        assert Filter(s, p) == [s[0]] + r;
        ConsPicks(s, sh, r);
      } else {
        assert Positions(s, p) == sh;
        assert Filter(s, p) == r;
      }
      assert Picks(s, Positions(s, p), Filter(s, p));
    }
  }

  /** Positions into the tail of `s`, shifted by one, are positions into `s`. */
  lemma ShiftedPicks<T>(s: seq<T>, ix: seq<int>, r: seq<T>)
    requires s != [] && Picks(s[1..], ix, r) && StrictlyIncreasing(ix)
    ensures Picks(s, Shifted(ix), r) && StrictlyIncreasing(Shifted(ix))
    ensures forall k :: 0 <= k < |ix| ==> Shifted(ix)[k] >= 1
  {
    var sh := Shifted(ix);
    forall k | 0 <= k < |ix|
      ensures 1 <= sh[k] < |s| && r[k] == s[sh[k]]
    {
      assert s[1..][ix[k]] == s[ix[k] + 1];
    }
  }

  /** Position 0 in front of positions that are all at least 1. */
  lemma ConsPicks<T>(s: seq<T>, sh: seq<int>, r: seq<T>)
    requires s != [] && Picks(s, sh, r) && StrictlyIncreasing(sh)
    requires forall k :: 0 <= k < |sh| ==> sh[k] >= 1
    ensures Picks(s, [0] + sh, [s[0]] + r) && StrictlyIncreasing([0] + sh)
  {
    var P, R := [0] + sh, [s[0]] + r;
    forall k | 1 <= k < |P|
      ensures P[k] == sh[k - 1] && R[k] == r[k - 1]
    {
    }
  }

  /** Every position whose element satisfies `p` is among `Positions`. */
  lemma {:induction false} PositionsComplete<T>(s: seq<T>, p: T -> bool, i: int)
    requires 0 <= i < |s| && p(s[i])
    ensures i in Positions(s, p)
  {
    var head: seq<int> := if p(s[0]) then [0] else [];
    assert Positions(s, p) == head + Shifted(Positions(s[1..], p));
    if i > 0 {
      assert s[1..][i - 1] == s[i];
      PositionsComplete(s[1..], p, i - 1);
      var ix := Positions(s[1..], p);
      var k :| 0 <= k < |ix| && ix[k] == i - 1;
      assert Shifted(ix)[k] == i;
    }
  }
}
