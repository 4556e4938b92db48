/** `Array.prototype.filter` over immutable sequences, and what it keeps. */
module Seqs {

  /** `s.filter(p)`: the elements satisfying `p`, in their original order. */
  function Select<T(!new)>(s: seq<T>, p: T -> bool): (r: seq<T>)
    ensures |r| <= |s|
    ensures forall k :: 0 <= k < |r| ==> p(r[k])
  {
    if s == [] then [] else (if p(s[0]) then [s[0]] else []) + Select(s[1..], p)
  }

  /** An element is kept exactly when it occurs in `s` and satisfies `p`. */
  lemma {:induction false} SelectMembers<T(!new)>(s: seq<T>, p: T -> bool, x: T)
    ensures x in Select(s, p) <==> x in s && p(x)
  {
    if s != [] {
      SelectMembers(s[1..], p, x);
      assert x in s <==> x == s[0] || x in s[1..];
    }
  }

  /** Adds one to every index. */
  function Shift(idx: seq<nat>): (r: seq<nat>)
    ensures |r| == |idx|
    ensures forall k :: 0 <= k < |idx| ==> r[k] == idx[k] + 1
  {
    if idx == [] then [] else [idx[0] + 1] + Shift(idx[1..])
  }

  lemma ShiftMembers(idx: seq<nat>, j: nat)
    ensures j + 1 in Shift(idx) <==> j in idx
    ensures 0 !in Shift(idx)
  {
    var r := Shift(idx);
    if j in idx {
      var k :| 0 <= k < |idx| && idx[k] == j;
      assert r[k] == j + 1;
    }
    if j + 1 in r {
      var k :| 0 <= k < |r| && r[k] == j + 1;
      assert idx[k] == j;
    }
  }

  /** The positions of `s` whose element satisfies `p`, in increasing order. */
  function KeptPositions<T>(s: seq<T>, p: T -> bool): (idx: seq<nat>)
    ensures forall k :: 0 <= k < |idx| ==> idx[k] < |s|
  {
    if s == [] then [] else (if p(s[0]) then [0] else []) + Shift(KeptPositions(s[1..], p))
  }

  lemma {:induction false} KeptPositionsLength<T(!new)>(s: seq<T>, p: T -> bool)
    ensures |KeptPositions(s, p)| == |Select(s, p)|
  {
    if s != [] {
      KeptPositionsLength(s[1..], p);
    }
  }

  lemma {:induction false} KeptPositionsPickAt<T(!new)>(s: seq<T>, p: T -> bool, k: nat)
    requires k < |Select(s, p)| && k < |KeptPositions(s, p)|
    ensures Select(s, p)[k] == s[KeptPositions(s, p)[k]]
  {
    KeptPositionsLength(s[1..], p);
    var tail, rest := Select(s[1..], p), KeptPositions(s[1..], p);
    assert Select(s, p) == (if p(s[0]) then [s[0]] else []) + tail;
    assert KeptPositions(s, p) == (if p(s[0]) then [0] else []) + Shift(rest);
    if !(p(s[0]) && k == 0) {
      var m := if p(s[0]) then k - 1 else k;
      assert Select(s, p)[k] == tail[m];
      assert KeptPositions(s, p)[k] == Shift(rest)[m] == rest[m] + 1;
      KeptPositionsPickAt(s[1..], p, m);
      assert s[1..][rest[m]] == s[rest[m] + 1];
    }
  }

  lemma {:induction false} KeptPositionsIncrease<T>(s: seq<T>, p: T -> bool)
    ensures forall k, m :: 0 <= k < m < |KeptPositions(s, p)| ==> KeptPositions(s, p)[k] < KeptPositions(s, p)[m]
  {
    if s != [] {
      KeptPositionsIncrease(s[1..], p);
    }
  }

  lemma {:induction false} KeptPositionsExact<T>(s: seq<T>, p: T -> bool, j: nat)
    requires j < |s|
    ensures p(s[j]) <==> j in KeptPositions(s, p)
  {
    var rest := KeptPositions(s[1..], p);
    ShiftMembers(rest, 0);
    if j > 0 {
      KeptPositionsExact(s[1..], p, j - 1);
      ShiftMembers(rest, j - 1);
    }
  }

  /** `Select` keeps exactly the positions of `s` whose element satisfies
      `p`, in increasing order: `idx` lists them, so the result is an
      order-preserving subsequence that neither adds, duplicates nor
      reorders anything. */
  lemma SelectIsSubsequence<T(!new)>(s: seq<T>, p: T -> bool) returns (idx: seq<nat>)
    ensures |idx| == |Select(s, p)|
    ensures forall k :: 0 <= k < |idx| ==> idx[k] < |s| && Select(s, p)[k] == s[idx[k]]
    ensures forall k, m :: 0 <= k < m < |idx| ==> idx[k] < idx[m]
    ensures forall j :: 0 <= j < |s| ==> (p(s[j]) <==> j in idx)
  {
    idx := KeptPositions(s, p);
    KeptPositionsLength(s, p);
    forall k | 0 <= k < |idx| ensures Select(s, p)[k] == s[idx[k]] {
      KeptPositionsPickAt(s, p, k);
    }
    KeptPositionsIncrease(s, p);
    forall j | 0 <= j < |s| ensures p(s[j]) <==> j in idx {
      KeptPositionsExact(s, p, j);
    }
  }

  /** Filtering with a predicate every element satisfies changes nothing. */
  lemma {:induction false} SelectAllKept<T(!new)>(s: seq<T>, p: T -> bool)
    requires forall k :: 0 <= k < |s| ==> p(s[k])
    ensures Select(s, p) == s
  {
    if s != [] {
      assert forall k :: 0 <= k < |s| - 1 ==> s[1..][k] == s[k + 1];
      SelectAllKept(s[1..], p);
      assert [s[0]] + s[1..] == s;
    }
  }

  /** Two filters in a row are one filter by the conjunction. */
  lemma {:induction false} SelectSelect<T(!new)>(s: seq<T>, p: T -> bool, q: T -> bool, both: T -> bool)
    requires forall x :: both(x) == (p(x) && q(x))
    ensures Select(Select(s, p), q) == Select(s, both)
  {
    if s != [] {
      SelectSelect(s[1..], p, q, both);
      var tail := Select(s[1..], p);
      assert Select(s, both) == (if both(s[0]) then [s[0]] else []) + Select(s[1..], both);
      if p(s[0]) {
        var kept := [s[0]] + tail;
        assert Select(s, p) == kept;
        assert kept[0] == s[0] && kept[1..] == tail;
        assert Select(kept, q) == (if q(s[0]) then [s[0]] else []) + Select(tail, q);
      } else {
        assert Select(s, p) == tail;
      }
    }
  }

  /** Filters by two predicates that never hold together split the
      elements kept by their disjunction. */
  lemma {:induction false} SelectDisjointUnion<T(!new)>(s: seq<T>, p: T -> bool, q: T -> bool, either: T -> bool)
    requires forall x :: !(p(x) && q(x))
    requires forall x :: either(x) == (p(x) || q(x))
    ensures |Select(s, p)| + |Select(s, q)| == |Select(s, either)|
  {
    if s != [] {
      SelectDisjointUnion(s[1..], p, q, either);
    }
  }

  /** Filters by predicates that agree on every element keep the same elements. */
  lemma {:induction false} SelectCongruent<T(!new)>(s: seq<T>, p: T -> bool, q: T -> bool)
    requires forall k :: 0 <= k < |s| ==> p(s[k]) == q(s[k])
    ensures Select(s, p) == Select(s, q)
  {
    if s != [] {
      assert forall k :: 0 <= k < |s| - 1 ==> s[1..][k] == s[k + 1];
      SelectCongruent(s[1..], p, q);
    }
  }

  /** Filtering with a predicate no element satisfies keeps nothing. */
  lemma {:induction false} SelectNoneKept<T(!new)>(s: seq<T>, p: T -> bool)
    requires forall k :: 0 <= k < |s| ==> !p(s[k])
    ensures Select(s, p) == []
  {
    if s != [] {
      assert forall k :: 0 <= k < |s| - 1 ==> s[1..][k] == s[k + 1];
      SelectNoneKept(s[1..], p);
    }
  }
}
