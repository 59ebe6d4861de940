/** Ordering of directory entries by an injected three-way comparison, and the
    stable sort (`sorted_by`) that the relocation order is taken from. */
module Sorting {

  /** The result of a three-way comparison. */
  datatype Ordering = Less | Equal | Greater

  /** What a well-behaved comparison promises: it answers `Less` exactly when
      the swapped comparison answers `Greater`, and "not greater" is transitive.
      Reflexivity and totality of "not greater" follow from these two. */
  ghost predicate TotalPreorder<T(!new)>(cmp: (T, T) -> Ordering) {
    && (forall a, b :: cmp(a, b) == Less <==> cmp(b, a) == Greater)
    && (forall a, b, c :: cmp(a, b) != Greater && cmp(b, c) != Greater ==> cmp(a, c) != Greater)
  }

  /** Every element is "not greater" than every later one. */
  ghost predicate SortedBy<T>(cmp: (T, T) -> Ordering, s: seq<T>) {
    forall i, j :: 0 <= i < j < |s| ==> cmp(s[i], s[j]) != Greater
  }

  /** The elements of `s`, each mapped through `key`, in the same order. */
  function Image<T, K>(key: T -> K, s: seq<T>): (r: seq<K>)
    ensures |r| == |s| && forall k :: 0 <= k < |s| ==> r[k] == key(s[k])
  {
    if s == [] then [] else [key(s[0])] + Image(key, s[1..])
  }

  /** Places `x` before the first element it is not greater than, so that `x`
      stays ahead of the elements it compares equal to. */
  function Insert<T>(cmp: (T, T) -> Ordering, x: T, s: seq<T>): (r: seq<T>)
    ensures multiset(r) == multiset(s) + multiset{x}
  {
    if s == [] || cmp(x, s[0]) != Greater then [x] + s
    else
      assert s == [s[0]] + s[1..];
      [s[0]] + Insert(cmp, x, s[1..])
  }

  /** Stable sort by `cmp`: insertion sort, taking the elements front to back. */
  function Sort<T>(cmp: (T, T) -> Ordering, s: seq<T>): (r: seq<T>)
    ensures multiset(r) == multiset(s)
  {
    if s == [] then []
    else
      assert s == [s[0]] + s[1..];
      Insert(cmp, s[0], Sort(cmp, s[1..]))
  }

  /** Inserting into an ordered sequence keeps it ordered. */
  lemma {:induction false} InsertSorted<T(!new)>(cmp: (T, T) -> Ordering, x: T, s: seq<T>)
    requires TotalPreorder(cmp) && SortedBy(cmp, s)
    ensures SortedBy(cmp, Insert(cmp, x, s))
  {
    if s == [] || cmp(x, s[0]) != Greater {
      forall k | 0 <= k < |s| ensures cmp(x, s[k]) != Greater {
        if k > 0 {
          assert cmp(s[0], s[k]) != Greater;
        }
      }
      PrependSorted(cmp, x, s);
    } else {
      var tail := Insert(cmp, x, s[1..]);
      assert SortedBy(cmp, s[1..]) by {
        forall i, j | 0 <= i < j < |s[1..]| ensures cmp(s[1..][i], s[1..][j]) != Greater {
          assert s[1..][i] == s[i + 1] && s[1..][j] == s[j + 1];
        }
      }
      InsertSorted(cmp, x, s[1..]);
      forall k | 0 <= k < |tail| ensures cmp(s[0], tail[k]) != Greater {
        assert tail[k] in multiset(tail);
        if tail[k] == x {
          assert cmp(x, s[0]) == Greater;
        } else {
          assert tail[k] in multiset(s[1..]);
          var m :| 0 <= m < |s[1..]| && s[1..][m] == tail[k];
          assert cmp(s[0], s[m + 1]) != Greater;
        }
      }
      PrependSorted(cmp, s[0], tail);
    }
  }

  /** An element not greater than any of an ordered sequence can go first. */
  lemma PrependSorted<T>(cmp: (T, T) -> Ordering, x: T, s: seq<T>)
    requires SortedBy(cmp, s)
    requires forall k :: 0 <= k < |s| ==> cmp(x, s[k]) != Greater
    ensures SortedBy(cmp, [x] + s)
  {
    var r := [x] + s;
    forall i, j | 0 <= i < j < |r| ensures cmp(r[i], r[j]) != Greater {
      assert r[j] == s[j - 1];
      if i > 0 {
        assert r[i] == s[i - 1];
      }
    }
  }

  /** Under a total preorder, the sort's output is ordered. */
  lemma {:induction false} SortSorted<T(!new)>(cmp: (T, T) -> Ordering, s: seq<T>)
    requires TotalPreorder(cmp)
    ensures SortedBy(cmp, Sort(cmp, s))
  {
    if s != [] {
      SortSorted(cmp, s[1..]);
      InsertSorted(cmp, s[0], Sort(cmp, s[1..]));
    }
  }

  lemma {:induction false} InsertImage<T, K>(cmp: (T, T) -> Ordering, key: T -> K, x: T, s: seq<T>)
    ensures multiset(Image(key, Insert(cmp, x, s))) == multiset(Image(key, s)) + multiset{key(x)}
  {
    if s == [] || cmp(x, s[0]) != Greater {
      assert Image(key, [x] + s) == [key(x)] + Image(key, s);
    } else {
      InsertImage(cmp, key, x, s[1..]);
      assert Image(key, Insert(cmp, x, s)) == [key(s[0])] + Image(key, Insert(cmp, x, s[1..]));
      assert Image(key, s) == [key(s[0])] + Image(key, s[1..]);
    }
  }

  /** Sorting permutes any per-element key the same way it permutes the
      elements (used for entry names, which the sort must neither lose nor
      duplicate). */
  lemma {:induction false} SortImage<T, K>(cmp: (T, T) -> Ordering, key: T -> K, s: seq<T>)
    ensures multiset(Image(key, Sort(cmp, s))) == multiset(Image(key, s))
  {
    if s != [] {
      SortImage(cmp, key, s[1..]);
      InsertImage(cmp, key, s[0], Sort(cmp, s[1..]));
      assert Image(key, s) == [key(s[0])] + Image(key, s[1..]);
    }
  }
}
