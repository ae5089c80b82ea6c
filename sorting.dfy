/** The stable sort the chat code gets from `Array.prototype.sort` with a
    numeric comparator, written as insertion sort on an integer key, largest
    key first. Ascending orders use the negated key. */
module Sorting {
  import opened Seqs

  /** Keys never increase from left to right. */
  ghost predicate NonIncreasing<T>(s: seq<T>, key: T -> int) {
    forall i, j :: 0 <= i < j < |s| ==> key(s[i]) >= key(s[j])
  }

  /** The elements of `s` whose key is `k`, in their order in `s`. A sort is
      stable when it leaves every such class in its input order. */
  function KeyClass<T(==)>(s: seq<T>, key: T -> int, k: int): seq<T> {
    Filter(s, x => key(x) == k)
  }

  /** Places `x` before the first element whose key is not larger than its own. */
  function Insert<T(==)>(x: T, s: seq<T>, key: T -> int): (r: seq<T>)
    ensures multiset(r) == multiset(s) + multiset{x}
    ensures r[0] == x || (s != [] && r[0] == s[0])
    ensures NonIncreasing(s, key) ==> NonIncreasing(r, key)
  {
    if s == [] || key(s[0]) <= key(x) then [x] + s
    else
      var tail := Insert(x, s[1..], key);
      assert s == [s[0]] + s[1..];
      assert NonIncreasing(s, key) ==> NonIncreasing([s[0]] + tail, key) by {
        if NonIncreasing(s, key) {
          TailNonIncreasing(s, key);
          var others := s[1..] + [x];
          assert multiset(others) == multiset(s[1..]) + multiset{x};
          assert forall i :: 0 <= i < |others| ==> key(s[0]) >= key(others[i]) by {
            forall i | 0 <= i < |others| ensures key(s[0]) >= key(others[i]) {
              if i < |s| - 1 {
                assert others[i] == s[i + 1];
              }
            }
          }
          PermutationKeeps(tail, others, y => key(s[0]) >= key(y));
          ConsNonIncreasing(s[0], tail, key);
        }
      }
      [s[0]] + tail
  }

  /** Dropping the first element keeps the order. */
  lemma TailNonIncreasing<T>(s: seq<T>, key: T -> int)
    requires s != [] && NonIncreasing(s, key)
    ensures NonIncreasing(s[1..], key)
  {
    forall i, j | 0 <= i < j < |s| - 1 ensures key(s[1..][i]) >= key(s[1..][j]) {
      assert s[1..][i] == s[i + 1] && s[1..][j] == s[j + 1];
    }
  }

  /** An element no smaller than every key of an ordered sequence can go in front. */
  lemma ConsNonIncreasing<T>(h: T, t: seq<T>, key: T -> int)
    requires NonIncreasing(t, key)
    requires forall j :: 0 <= j < |t| ==> key(h) >= key(t[j])
    ensures NonIncreasing([h] + t, key)
  {
    var r := [h] + t;
    forall i, j | 0 <= i < j < |r| ensures key(r[i]) >= key(r[j]) {
      assert r[j] == t[j - 1];
      if i > 0 {
        assert r[i] == t[i - 1];
      }
    }
  }

  /** Insertion sort by `key`, largest first; equal keys keep their input order. */
  function StableSortDesc<T(==)>(s: seq<T>, key: T -> int): (r: seq<T>)
    ensures multiset(r) == multiset(s)
    ensures NonIncreasing(r, key)
  {
    if s == [] then []
    else
      var rest := StableSortDesc(s[1..], key);
      assert s == [s[0]] + s[1..];
      Insert(s[0], rest, key)
  }

  /** Inserting into a sorted sequence puts `x` ahead of every element with its key. */
  lemma {:induction false} InsertKeepsClasses<T>(x: T, s: seq<T>, key: T -> int, k: int)
    requires NonIncreasing(s, key)
    ensures KeyClass(Insert(x, s, key), key, k) == KeyClass([x], key, k) + KeyClass(s, key, k)
  {
    var p := (y: T) => key(y) == k;
    if s == [] || key(s[0]) <= key(x) {
      FilterConcat([x], s, p);
    } else {
      InsertKeepsClasses(x, s[1..], key, k);
      FilterConcat([s[0]], Insert(x, s[1..], key), p);
      FilterConcat([s[0]], s[1..], p);
      assert [s[0]] + s[1..] == s;
    }
  }

  /** The sort is stable: each class of equal keys keeps its input order. */
  lemma {:induction false} SortIsStable<T>(s: seq<T>, key: T -> int, k: int)
    ensures KeyClass(StableSortDesc(s, key), key, k) == KeyClass(s, key, k)
  {
    if s != [] {
      SortIsStable(s[1..], key, k);
      InsertKeepsClasses(s[0], StableSortDesc(s[1..], key), key, k);
      FilterConcat([s[0]], s[1..], y => key(y) == k);
      assert [s[0]] + s[1..] == s;
    }
  }

  /** The class of a sequence with a given first element. */
  lemma ConsClass<T>(x: T, s: seq<T>, key: T -> int, k: int)
    ensures KeyClass([x] + s, key, k) == (if key(x) == k then [x] else []) + KeyClass(s, key, k)
  {
    assert ([x] + s)[0] == x;
    assert ([x] + s)[1..] == s;
  }

  /** In a sorted `b` that holds the class of `a[0]`'s key, `b[0]` has a key at least as large. */
  lemma HeadKeyBound<T>(a: seq<T>, b: seq<T>, key: T -> int)
    requires a != [] && b != [] && NonIncreasing(b, key)
    requires KeyClass(a, key, key(a[0])) == KeyClass(b, key, key(a[0]))
    ensures key(b[0]) >= key(a[0])
  {
    assert a[0] in KeyClass(a, key, key(a[0]));
    assert a[0] in b;
    var j :| 0 <= j < |b| && b[j] == a[0];
  }

  /** Sorted sequences with the same classes start with the same element. */
  lemma SameHead<T>(a: seq<T>, b: seq<T>, key: T -> int)
    requires a != [] && b != [] && NonIncreasing(a, key) && NonIncreasing(b, key)
    requires forall k :: KeyClass(a, key, k) == KeyClass(b, key, k)
    ensures a[0] == b[0]
  {
    var k0 := key(a[0]);
    assert KeyClass(a, key, k0) == KeyClass(b, key, k0);
    assert KeyClass(b, key, key(b[0])) == KeyClass(a, key, key(b[0]));
    HeadKeyBound(a, b, key);
    HeadKeyBound(b, a, key);
    assert a == [a[0]] + a[1..] && b == [b[0]] + b[1..];
    ConsClass(a[0], a[1..], key, k0);
    ConsClass(b[0], b[1..], key, k0);
    assert KeyClass(a, key, k0)[0] == a[0];
    assert KeyClass(b, key, k0)[0] == b[0];
  }

  /** Removing the same first element leaves the same classes. */
  lemma SameTailClasses<T>(a: seq<T>, b: seq<T>, key: T -> int, k: int)
    requires a != [] && b != [] && a[0] == b[0]
    requires KeyClass(a, key, k) == KeyClass(b, key, k)
    ensures KeyClass(a[1..], key, k) == KeyClass(b[1..], key, k)
  {
    assert a == [a[0]] + a[1..] && b == [b[0]] + b[1..];
    ConsClass(a[0], a[1..], key, k);
    ConsClass(b[0], b[1..], key, k);
    var h := if key(a[0]) == k then [a[0]] else [];
    assert KeyClass(a[1..], key, k) == KeyClass(a, key, k)[|h|..];
    assert KeyClass(b[1..], key, k) == KeyClass(b, key, k)[|h|..];
  }

  /** A non-empty sequence has a non-empty class for the key of its first element. */
  lemma HeadClassNonEmpty<T>(a: seq<T>, key: T -> int)
    requires a != []
    ensures KeyClass(a, key, key(a[0])) != []
  {
    assert a[0] in KeyClass(a, key, key(a[0]));
  }

  /** Two sorted sequences with the same classes of equal keys are equal. */
  lemma {:induction false} SortedWithSameClassesEqual<T>(a: seq<T>, b: seq<T>, key: T -> int)
    requires NonIncreasing(a, key) && NonIncreasing(b, key)
    requires forall k :: KeyClass(a, key, k) == KeyClass(b, key, k)
    ensures a == b
    decreases |a|
  {
    if a != [] && b != [] {
      SameHead(a, b, key);
      forall k ensures KeyClass(a[1..], key, k) == KeyClass(b[1..], key, k) {
        SameTailClasses(a, b, key, k);
      }
      SortedWithSameClassesEqual(a[1..], b[1..], key);
      assert a == [a[0]] + a[1..] && b == [b[0]] + b[1..];
    } else if a != [] {
      HeadClassNonEmpty(a, key);
    } else if b != [] {
      HeadClassNonEmpty(b, key);
    }
  }

  /** Any stable sort agrees with this one: a sorted sequence that keeps every
      class of equal keys of `s` in order is `StableSortDesc(s, key)`. */
  lemma StableSortIsUnique<T>(s: seq<T>, r: seq<T>, key: T -> int)
    requires NonIncreasing(r, key)
    requires forall k :: KeyClass(r, key, k) == KeyClass(s, key, k)
    ensures r == StableSortDesc(s, key)
  {
    forall k ensures KeyClass(r, key, k) == KeyClass(StableSortDesc(s, key), key, k) {
      SortIsStable(s, key, k);
    }
    SortedWithSameClassesEqual(r, StableSortDesc(s, key), key);
  }

  /** Stability for every key at once. */
  lemma SortKeepsEveryClass<T>(s: seq<T>, key: T -> int)
    ensures forall k :: KeyClass(StableSortDesc(s, key), key, k) == KeyClass(s, key, k)
  {
    forall k ensures KeyClass(StableSortDesc(s, key), key, k) == KeyClass(s, key, k) {
      SortIsStable(s, key, k);
    }
  }
}
