/** The optional value that stands for Python's `None`. */
module Options {
  datatype Option<+T> = None | Some(value: T)
}

/**
 * Generic sequence operations used by the pipeline: the row filter that a
 * boolean mask over a DataFrame performs, the positions it keeps, and counting.
 */
module Seqs {

  /** `f` applied to every element of `s`, in order. */
  function Map<A, B>(f: A -> B, s: seq<A>): (r: seq<B>)
    ensures |r| == |s|
    ensures forall i :: 0 <= i < |s| ==> r[i] == f(s[i])
  {
    if s == [] then [] else Map(f, s[..|s| - 1]) + [f(s[|s| - 1])]
  }

  lemma MapAppend<A, B>(f: A -> B, a: seq<A>, b: seq<A>)
    ensures Map(f, a + b) == Map(f, a) + Map(f, b)
  {
    var whole, parts := Map(f, a + b), Map(f, a) + Map(f, b);
    forall i | 0 <= i < |a + b|
      ensures whole[i] == parts[i]
    {
      if i < |a| {
        assert (a + b)[i] == a[i];
      } else {
        assert (a + b)[i] == b[i - |a|];
      }
    }
  }

  /** The elements of `s` that satisfy `p`, in their original order. */
  function Filter<T>(p: T -> bool, s: seq<T>): (r: seq<T>)
    ensures |r| <= |s|
    ensures forall i :: 0 <= i < |r| ==> p(r[i])
    ensures forall x :: x in r ==> x in s
  {
    if s == [] then [] else (if p(s[0]) then [s[0]] else []) + Filter(p, s[1..])
  }

  lemma {:induction false} FilterAppend<T>(p: T -> bool, a: seq<T>, b: seq<T>)
    ensures Filter(p, a + b) == Filter(p, a) + Filter(p, b)
  {
    if a == [] {
      assert a + b == b;
    } else {
      assert (a + b)[1..] == a[1..] + b;
      FilterAppend(p, a[1..], b);
    }
  }

  /** A sequence whose every element passes the test is kept whole. */
  lemma {:induction false} FilterKeepsAll<T>(p: T -> bool, s: seq<T>)
    requires forall i :: 0 <= i < |s| ==> p(s[i])
    ensures Filter(p, s) == s
  {
    if s != [] {
      FilterKeepsAll(p, s[1..]);
    }
  }

  lemma FilterSingleton<T>(p: T -> bool, x: T)
    ensures Filter(p, [x]) == if p(x) then [x] else []
  {
    assert [x][1..] == [];
  }

  /** Nothing is kept when no element passes the test. */
  lemma {:induction false} FilterKeepsNone<T>(p: T -> bool, s: seq<T>)
    requires forall i :: 0 <= i < |s| ==> !p(s[i])
    ensures Filter(p, s) == []
  {
    if s != [] {
      FilterKeepsNone(p, s[1..]);
    }
  }

  /** Filtering first by a weaker test changes nothing. */
  lemma {:induction false} FilterAbsorbs<T>(p: T -> bool, q: T -> bool, s: seq<T>)
    requires forall i :: 0 <= i < |s| && q(s[i]) ==> p(s[i])
    ensures Filter(q, Filter(p, s)) == Filter(q, s)
  {
    if s != [] {
      FilterAbsorbs(p, q, s[1..]);
      var head := if p(s[0]) then [s[0]] else [];
      FilterAppend(q, head, Filter(p, s[1..]));
    }
  }

  /** The positions `j >= from` of `s` whose element passes `p`, ascending. */
  function KeptPositions<T>(p: T -> bool, s: seq<T>, from: nat): (r: seq<nat>)
    requires from <= |s|
    ensures forall k :: 0 <= k < |r| ==> from <= r[k] < |s|
    decreases |s| - from
  {
    if from == |s| then []
    else (if p(s[from]) then [from] else []) + KeptPositions(p, s, from + 1)
  }

  /** The kept positions ascend. */
  lemma {:induction false} KeptPositionsAscend<T>(p: T -> bool, s: seq<T>, from: nat)
    requires from <= |s|
    ensures forall k, m :: 0 <= k < m < |KeptPositions(p, s, from)| ==> KeptPositions(p, s, from)[k] < KeptPositions(p, s, from)[m]
  {
    forall k, m | 0 <= k < m < |KeptPositions(p, s, from)|
      ensures KeptPositions(p, s, from)[k] < KeptPositions(p, s, from)[m]
    {
      KeptPositionsAscendAt(p, s, from, k, m);
    }
  }

  /** The positions at indices `k < m` of the kept list ascend. */
  lemma {:induction false} KeptPositionsAscendAt<T>(p: T -> bool, s: seq<T>, from: nat, k: nat, m: nat)
    requires from <= |s| && k < m < |KeptPositions(p, s, from)|
    ensures KeptPositions(p, s, from)[k] < KeptPositions(p, s, from)[m]
    decreases |s| - from
  {
    var rest := KeptPositions(p, s, from + 1);
    if !p(s[from]) {
      assert KeptPositions(p, s, from) == rest;
      KeptPositionsAscendAt(p, s, from + 1, k, m);
    } else {
      assert KeptPositions(p, s, from) == [from] + rest;
      if k > 0 {
        KeptPositionsAscendAt(p, s, from + 1, k - 1, m - 1);
      }
    }
  }

  /** A position is kept exactly when its element passes `p`. */
  lemma {:induction false} KeptPositionsMembers<T>(p: T -> bool, s: seq<T>, from: nat)
    requires from <= |s|
    ensures forall j :: from <= j < |s| ==> (p(s[j]) <==> j in KeptPositions(p, s, from))
  {
    forall j | from <= j < |s|
      ensures p(s[j]) <==> j in KeptPositions(p, s, from)
    {
      KeptPositionsMembersAt(p, s, from, j);
    }
  }

  lemma {:induction false} KeptPositionsMembersAt<T>(p: T -> bool, s: seq<T>, from: nat, j: nat)
    requires from <= j < |s|
    ensures p(s[j]) <==> j in KeptPositions(p, s, from)
    decreases |s| - from
  {
    var rest := KeptPositions(p, s, from + 1);
    assert KeptPositions(p, s, from) == (if p(s[from]) then [from] else []) + rest;
    if j == from {
      assert from !in rest;
    } else {
      KeptPositionsMembersAt(p, s, from + 1, j);
    }
  }

  /** The filtered elements are the elements at the kept positions. */
  lemma {:induction false} FilterAtKeptPositions<T>(p: T -> bool, s: seq<T>, from: nat)
    requires from <= |s|
    ensures |KeptPositions(p, s, from)| == |Filter(p, s[from..])|
    ensures forall k :: 0 <= k < |KeptPositions(p, s, from)| ==> Filter(p, s[from..])[k] == s[KeptPositions(p, s, from)[k]]
    decreases |s| - from
  {
    if from < |s| {
      FilterAtKeptPositions(p, s, from + 1);
      assert s[from..][1..] == s[from + 1..];
    }
  }

  /**
   * `Filter(p, s)` is exactly the elements of `s` at the positions that pass
   * `p`, in increasing order of position.
   */
  lemma {:induction false} FilterSelects<T>(p: T -> bool, s: seq<T>, from: nat)
    requires from <= |s|
    ensures var idx := KeptPositions(p, s, from);
      && |idx| == |Filter(p, s[from..])|
      && (forall k :: 0 <= k < |idx| ==> from <= idx[k] < |s| && Filter(p, s[from..])[k] == s[idx[k]])
      && (forall k, m :: 0 <= k < m < |idx| ==> idx[k] < idx[m])
      && (forall j :: from <= j < |s| ==> (p(s[j]) <==> j in idx))
  {
    KeptPositionsAscend(p, s, from);
    KeptPositionsMembers(p, s, from);
    FilterAtKeptPositions(p, s, from);
  }

  /** The number of elements of `s` that pass `p`. */
  function Count<T>(p: T -> bool, s: seq<T>): (n: nat)
    ensures n <= |s|
  {
    if s == [] then 0 else (if p(s[0]) then 1 else 0) + Count(p, s[1..])
  }

  /** Three tests that split every element exactly one way split the count. */
  lemma {:induction false} CountPartition<T>(p: T -> bool, q: T -> bool, r: T -> bool, s: seq<T>)
    requires forall i :: 0 <= i < |s| ==> (if p(s[i]) then 1 else 0) + (if q(s[i]) then 1 else 0) + (if r(s[i]) then 1 else 0) == 1
    ensures Count(p, s) + Count(q, s) + Count(r, s) == |s|
  {
    if s != [] {
      CountPartition(p, q, r, s[1..]);
    }
  }

  /** If every element passing `q` in `b` has its partner in `a` passing `p`, `b` counts no more. */
  lemma {:induction false} CountPointwise<T>(p: T -> bool, a: seq<T>, q: T -> bool, b: seq<T>)
    requires |a| == |b|
    requires forall i :: 0 <= i < |b| && q(b[i]) ==> p(a[i])
    ensures Count(q, b) <= Count(p, a)
  {
    if b != [] {
      CountPointwise(p, a[1..], q, b[1..]);
    }
  }
}
