/** Sequences without repetition, sequences read backwards, and subsequences. */
module Sequences {

  ghost predicate Distinct<T>(s: seq<T>) {
    forall i, j :: 0 <= i < j < |s| ==> s[i] != s[j]
  }

  function Reversed<T>(s: seq<T>): (r: seq<T>)
    ensures |r| == |s|
    ensures forall i :: 0 <= i < |s| ==> r[i] == s[|s| - 1 - i]
  {
    seq(|s|, i requires 0 <= i < |s| => s[|s| - 1 - i])
  }

  lemma ReversedTwice<T>(s: seq<T>)
    ensures Reversed(Reversed(s)) == s
  {
  }

  lemma {:induction false} ReversedBack<T>(s: seq<T>, x: T)
    ensures Reversed(s + [x]) == [x] + Reversed(s)
  {
  }

  ghost predicate Increasing(points: seq<nat>) {
    forall i, j :: 0 <= i < j < |points| ==> points[i] < points[j]
  }

  /** One more position is listed or not. */
  lemma {:induction false} NextPosition(was: seq<nat>, n: nat, keep: bool) returns (at: seq<nat>)
    requires Increasing(was) && forall i :: 0 <= i < |was| ==> was[i] < n
    ensures Increasing(at) && at == if keep then was + [n] else was
    ensures forall i: nat :: i in at <==> i in was || (keep && i == n)
  {
    at := if keep then was + [n] else was;
  }

  /** `m` is `l` read at the given positions, in order. */
  ghost predicate Picks<T>(l: seq<T>, positions: seq<nat>, m: seq<T>) {
    && |positions| == |m| && Increasing(positions)
    && (forall i :: 0 <= i < |positions| ==> positions[i] < |l| && m[i] == l[positions[i]])
  }

  /** One more element is picked or not. */
  lemma {:induction false} PickNext<T>(l: seq<T>, x: T, positions: seq<nat>, m: seq<T>, keep: bool)
    returns (at: seq<nat>)
    requires Picks(l, positions, m)
    ensures Picks(l + [x], at, if keep then m + [x] else m)
    ensures forall i: nat :: i in at <==> i in positions || (keep && i == |l|)
  {
    at := NextPosition(positions, |l|, keep);
  }
}
