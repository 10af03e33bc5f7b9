/** Sequence helpers: `Array.prototype.filter` and the positions it keeps. */
module Seqs {

  /** `s.filter(p)`: the elements of `s` that satisfy `p`, in their original order. */
  function Filter<T>(p: T -> bool, s: seq<T>): (r: seq<T>)
    ensures |r| <= |s|
    ensures forall k :: 0 <= k < |r| ==> r[k] in s && p(r[k])
    ensures forall i :: 0 <= i < |s| && p(s[i]) ==> s[i] in r
  {
    if s == [] then []
    else
      assert forall i :: 1 <= i < |s| ==> s[i] == s[1..][i - 1];
      (if p(s[0]) then [s[0]] else []) + Filter(p, s[1..])
  }

  /** The positions of `s` whose elements satisfy `p`, in increasing order. */
  function Positions<T>(p: T -> bool, s: seq<T>): seq<nat>
  {
    if s == [] then []
    else
      var tail := Positions(p, s[1..]);
      (if p(s[0]) then [0] else []) + seq(|tail|, k requires 0 <= k < |tail| => tail[k] + 1)
  }

  predicate Increasing(xs: seq<nat>)
  {
    forall i, j :: 0 <= i < j < |xs| ==> xs[i] < xs[j]
  }

  /** `Filter(p, s)` is exactly the subsequence of `s` at the positions where `p` holds. */
  lemma {:induction false} FilterIsSubsequence<T>(p: T -> bool, s: seq<T>)
    ensures |Filter(p, s)| == |Positions(p, s)|
    ensures Increasing(Positions(p, s))
    ensures forall k :: 0 <= k < |Positions(p, s)| ==>
              Positions(p, s)[k] < |s| && Filter(p, s)[k] == s[Positions(p, s)[k]]
    ensures forall i :: 0 <= i < |s| ==> (i in Positions(p, s) <==> p(s[i]))
  {
    if s != [] {
      var tail, rest := Positions(p, s[1..]), Filter(p, s[1..]);
      FilterIsSubsequence(p, s[1..]);
      var shifted := seq(|tail|, k requires 0 <= k < |tail| => tail[k] + 1);
      assert Positions(p, s) == (if p(s[0]) then [0] else []) + shifted;
      assert Filter(p, s) == (if p(s[0]) then [s[0]] else []) + rest;
      ShiftedMembers(tail, shifted, |s| - 1);
      PrependZero(if p(s[0]) then [0] else [], shifted);
      StepElements(p, s, tail, rest, shifted);
      StepMembers(p, s, tail, shifted);
    }
  }

  lemma PrependZero(head: seq<nat>, shifted: seq<nat>)
    requires head == [] || head == [0]
    requires Increasing(shifted) && 0 !in shifted
    ensures Increasing(head + shifted)
  {
    if head == [0] {
      forall i, j | 0 <= i < j < |head + shifted|
        ensures (head + shifted)[i] < (head + shifted)[j]
      {
        assert (head + shifted)[j] == shifted[j - 1];
        if i > 0 {
          assert (head + shifted)[i] == shifted[i - 1];
        } else {
          assert shifted[j - 1] in shifted;
        }
      }
    }
  }

  lemma StepElements<T>(p: T -> bool, s: seq<T>, tail: seq<nat>, rest: seq<T>, shifted: seq<nat>)
    requires s != [] && |rest| == |tail| == |shifted|
    requires forall k :: 0 <= k < |tail| ==> tail[k] < |s| - 1 && rest[k] == s[1..][tail[k]]
    requires forall k :: 0 <= k < |tail| ==> shifted[k] == tail[k] + 1
    ensures var pos, r := (if p(s[0]) then [0] else []) + shifted, (if p(s[0]) then [s[0]] else []) + rest;
      forall k :: 0 <= k < |pos| ==> pos[k] < |s| && r[k] == s[pos[k]]
  {
    var pos, r := (if p(s[0]) then [0] else []) + shifted, (if p(s[0]) then [s[0]] else []) + rest;
    var d := if p(s[0]) then 1 else 0;
    forall k | 0 <= k < |pos|
      ensures pos[k] < |s| && r[k] == s[pos[k]]
    {
      if k >= d {
        assert pos[k] == shifted[k - d] == tail[k - d] + 1;
        assert r[k] == rest[k - d] == s[1..][tail[k - d]];
      }
    }
  }

  lemma StepMembers<T>(p: T -> bool, s: seq<T>, tail: seq<nat>, shifted: seq<nat>)
    requires s != []
    requires forall i :: 0 <= i < |s| - 1 ==> (i in tail <==> p(s[1..][i]))
    requires 0 !in shifted && forall i :: 0 < i ==> (i in shifted <==> i - 1 in tail)
    ensures forall i :: 0 <= i < |s| ==> (i in (if p(s[0]) then [0] else []) + shifted <==> p(s[i]))
  {
    forall i | 0 < i < |s|
      ensures i in shifted <==> p(s[i])
    {
      assert s[i] == s[1..][i - 1];
    }
  }

  /** Adding one to every element of an increasing list of positions below `n`. */
  lemma ShiftedMembers(tail: seq<nat>, shifted: seq<nat>, n: nat)
    requires Increasing(tail) && forall k :: 0 <= k < |tail| ==> tail[k] < n
    requires |shifted| == |tail| && forall k :: 0 <= k < |tail| ==> shifted[k] == tail[k] + 1
    ensures Increasing(shifted) && 0 !in shifted
    ensures forall i :: 0 < i ==> (i in shifted <==> i - 1 in tail)
  {
    forall i | 0 < i
      ensures i in shifted <==> i - 1 in tail
    {
      if i - 1 in tail {
        var k :| 0 <= k < |tail| && tail[k] == i - 1;
        assert shifted[k] == i;
      }
    }
  }

  /** Two sequences whose elements agree pointwise under `p` and `q` have the same positions. */
  lemma {:induction false} PositionsPointwise<T, U>(p: T -> bool, s: seq<T>, q: U -> bool, t: seq<U>)
    requires |s| == |t|
    requires forall i :: 0 <= i < |s| ==> p(s[i]) == q(t[i])
    ensures Positions(p, s) == Positions(q, t)
  {
    if s != [] {
      assert forall i :: 0 <= i < |s[1..]| ==> s[1..][i] == s[i + 1] && t[1..][i] == t[i + 1];
      PositionsPointwise(p, s[1..], q, t[1..]);
    }
  }

  /** `s.reverse()`, read as a value: the elements of `s` from last to first. */
  function Reverse<T>(s: seq<T>): (r: seq<T>)
    ensures |r| == |s|
    ensures forall i :: 0 <= i < |s| ==> r[i] == s[|s| - 1 - i]
  {
    if s == [] then [] else Reverse(s[1..]) + [s[0]]
  }

  /** A filter that every element passes keeps the whole sequence. */
  lemma {:induction false} FilterAll<T>(p: T -> bool, s: seq<T>)
    requires forall i :: 0 <= i < |s| ==> p(s[i])
    ensures Filter(p, s) == s
  {
    if s != [] {
      assert forall i :: 1 <= i < |s| ==> s[1..][i - 1] == s[i];
      FilterAll(p, s[1..]);
    }
  }
}
