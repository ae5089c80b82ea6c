/** Sequence helpers shared by the chat model: the order-preserving filter that
    `Array.prototype.filter` computes, and the subsequence relation it satisfies. */
module Seqs {

  /** The elements of `s` that satisfy `p`, in their original order. */
  function Filter<T(==)>(s: seq<T>, p: T -> bool): (r: seq<T>)
    ensures |r| <= |s|
    ensures forall i :: 0 <= i < |r| ==> r[i] in s && p(r[i])
    ensures forall i :: 0 <= i < |s| && p(s[i]) ==> s[i] in r
  {
    if s == [] then [] else (if p(s[0]) then [s[0]] else []) + Filter(s[1..], p)
  }

  /** The filter keeps every copy of an element that passes and none of one
      that fails: duplicates are not merged. */
  lemma {:induction false} FilterCounts<T>(s: seq<T>, p: T -> bool)
    ensures multiset(Filter(s, p)) <= multiset(s)
    ensures forall i :: 0 <= i < |s| ==>
      multiset(Filter(s, p))[s[i]] == if p(s[i]) then multiset(s)[s[i]] else 0
  {
    if s != [] {
      var t := s[1..];
      FilterCounts(t, p);
      var head := if p(s[0]) then [s[0]] else [];
      assert s == [s[0]] + t;
      assert multiset(s) == multiset{s[0]} + multiset(t);
      assert multiset(Filter(s, p)) == multiset(head) + multiset(Filter(t, p));
      forall i | 0 <= i < |s|
        ensures multiset(Filter(s, p))[s[i]] == if p(s[i]) then multiset(s)[s[i]] else 0
      {
        var y := s[i];
        if y in t {
          var k :| 0 <= k < |t| && t[k] == y;
          assert multiset(Filter(t, p))[t[k]] == if p(t[k]) then multiset(t)[t[k]] else 0;
        } else {
          assert multiset(t)[y] == 0;
        }
      }
    }
  }

  /** `a` can be obtained from `b` by deleting elements, without reordering. */
  ghost predicate IsSubsequence<T>(a: seq<T>, b: seq<T>)
    decreases |b|
  {
    if b == [] then a == []
    else (a != [] && a[0] == b[0] && IsSubsequence(a[1..], b[1..])) || IsSubsequence(a, b[1..])
  }

  /** Filtering keeps the survivors in their original order. */
  lemma {:induction false} FilterIsSubsequence<T>(s: seq<T>, p: T -> bool)
    ensures IsSubsequence(Filter(s, p), s)
  {
    if s != [] {
      FilterIsSubsequence(s[1..], p);
      var r := Filter(s, p);
      if p(s[0]) {
        assert r == [s[0]] + Filter(s[1..], p);
        assert r[0] == s[0] && r[1..] == Filter(s[1..], p);
      } else {
        assert r == Filter(s[1..], p);
      }
    }
  }

  /** Filtering distributes over concatenation. */
  lemma {:induction false} FilterConcat<T>(a: seq<T>, b: seq<T>, p: T -> bool)
    ensures Filter(a + b, p) == Filter(a, p) + Filter(b, p)
  {
    if a != [] {
      assert (a + b)[0] == a[0];
      assert (a + b)[1..] == a[1..] + b;
      FilterConcat(a[1..], b, p);
      var head := if p(a[0]) then [a[0]] else [];
      assert Filter(a + b, p) == head + (Filter(a[1..], p) + Filter(b, p));
      assert Filter(a, p) == head + Filter(a[1..], p);
    } else {
      assert a + b == b;
    }
  }

  /** A filter keeps every element exactly when every element passes it. */
  lemma {:induction false} FilterKeepsAllIff<T>(s: seq<T>, p: T -> bool)
    ensures |Filter(s, p)| == |s| <==> forall i :: 0 <= i < |s| ==> p(s[i])
  {
    if s != [] {
      FilterKeepsAllIff(s[1..], p);
      assert forall i :: 1 <= i < |s| ==> s[i] == s[1..][i - 1];
    }
  }

  /** A filter keeps nothing exactly when no element passes it. */
  lemma FilterEmptyIff<T>(s: seq<T>, p: T -> bool)
    ensures Filter(s, p) == [] <==> forall i :: 0 <= i < |s| ==> !p(s[i])
  {
    if Filter(s, p) != [] {
      var r := Filter(s, p);
      assert r[0] in s && p(r[0]);
    }
  }

  /** A rearrangement of a sequence whose elements all pass `p` passes `p` too. */
  lemma PermutationKeeps<T>(r: seq<T>, s: seq<T>, p: T -> bool)
    requires multiset(r) == multiset(s)
    requires forall i :: 0 <= i < |s| ==> p(s[i])
    ensures forall i :: 0 <= i < |r| ==> p(r[i])
  {
    forall i | 0 <= i < |r| ensures p(r[i]) {
      assert r[i] in multiset(s);
      var k :| 0 <= k < |s| && s[k] == r[i];
    }
  }

  /** Element `i` is the only one that passes `p`. */
  ghost predicate OnlyMatch<T>(s: seq<T>, p: T -> bool, i: int)
    requires 0 <= i < |s|
  {
    p(s[i]) && forall j :: 0 <= j < |s| && j != i ==> !p(s[j])
  }

  /** When one element alone passes, the filter keeps exactly one. */
  lemma {:induction false} FilterSingletonFrom<T>(s: seq<T>, p: T -> bool, i: int)
    requires 0 <= i < |s| && OnlyMatch(s, p, i)
    ensures |Filter(s, p)| == 1
  {
    var t := s[1..];
    if i == 0 {
      forall k | 0 <= k < |t| ensures !p(t[k]) {
        assert t[k] == s[k + 1];
      }
      FilterEmptyIff(t, p);
    } else {
      forall j | 0 <= j < |t| && j != i - 1 ensures !p(t[j]) {
        assert t[j] == s[j + 1];
      }
      assert t[i - 1] == s[i];
      FilterSingletonFrom(t, p, i - 1);
    }
  }

  /** When the filter keeps exactly one element, that element alone passes. */
  lemma {:induction false} FilterSingletonTo<T>(s: seq<T>, p: T -> bool) returns (i: int)
    requires |Filter(s, p)| == 1
    ensures 0 <= i < |s| && OnlyMatch(s, p, i)
  {
    var t := s[1..];
    if p(s[0]) {
      FilterEmptyIff(t, p);
      i := 0;
      forall j | 0 < j < |s| ensures !p(s[j]) {
        assert s[j] == t[j - 1];
      }
    } else {
      var k := FilterSingletonTo(t, p);
      i := k + 1;
      forall j | 0 < j < |s| && j != i ensures !p(s[j]) {
        assert s[j] == t[j - 1];
      }
      assert s[i] == t[k];
    }
  }

  /** A filter keeps exactly one element exactly when one element alone passes it. */
  lemma FilterSingleton<T>(s: seq<T>, p: T -> bool)
    ensures |Filter(s, p)| == 1 <==> exists i :: 0 <= i < |s| && OnlyMatch(s, p, i)
  {
    if |Filter(s, p)| == 1 {
      var i := FilterSingletonTo(s, p);
    }
    if exists i :: 0 <= i < |s| && OnlyMatch(s, p, i) {
      var i :| 0 <= i < |s| && OnlyMatch(s, p, i);
      FilterSingletonFrom(s, p, i);
    }
  }
}
