/** Cutting the sorted entries into consecutive chunks of a fixed size, as
    itertools' `chunks` does. */
module Partition {

  function Min(a: int, b: int): int {
    if a <= b then a else b
  }

  /** The chunks laid end to end. */
  function Flatten<T>(chunks: seq<seq<T>>): seq<T> {
    if chunks == [] then [] else chunks[0] + Flatten(chunks[1..])
  }

  /** Consecutive pieces of `s`, each of `c` elements except possibly the last. */
  function Chunks<T>(s: seq<T>, c: nat): (r: seq<seq<T>>)
    requires c > 0
    ensures forall k :: 0 <= k < |r| ==> 0 < |r[k]| <= c
    decreases |s|
  {
    if |s| == 0 then []
    else if |s| <= c then [s]
    else [s[..c]] + Chunks(s[c..], c)
  }

  /** Laid end to end, the chunks give back `s`: nothing lost, duplicated or
      reordered. */
  lemma {:induction false} FlattenChunks<T>(s: seq<T>, c: nat)
    requires c > 0
    ensures Flatten(Chunks(s, c)) == s
    decreases |s|
  {
    if |s| == 0 {
    } else if |s| <= c {
      assert Flatten([s]) == s + Flatten([]);
    } else {
      var rest := Chunks(s[c..], c);
      FlattenChunks(s[c..], c);
      assert ([s[..c]] + rest)[1..] == rest;
      assert s == s[..c] + s[c..];
    }
  }

  /** `k` is `n / c` rounded up: `k` groups of `c` hold `n` elements and
      `k - 1` groups do not. */
  ghost predicate RoundsUp(k: int, n: int, c: int) {
    (k - 1) * c < n <= k * c
  }

  /** The number of chunks is |s| / c rounded up: the fewest chunks of size
      `c` that hold |s| elements, hence none when `s` is empty. */
  lemma {:induction false} ChunkCount<T>(s: seq<T>, c: nat)
    requires c > 0
    ensures RoundsUp(|Chunks(s, c)|, |s|, c)
    ensures |s| == 0 <==> |Chunks(s, c)| == 0
    decreases |s|
  {
    var n := |Chunks(s, c)|;
    if |s| > c {
      ChunkCount(s[c..], c);
      assert (n - 1) * c == (n - 2) * c + c;
      assert n * c == (n - 1) * c + c;
    }
  }

  /** Chunk `i` holds exactly the positions [i*c, min((i+1)*c, |s|)). */
  lemma ChunkAt<T>(s: seq<T>, c: nat, i: nat)
    requires c > 0 && i < |Chunks(s, c)|
    ensures i * c < |s|
    ensures Chunks(s, c)[i] == s[i * c .. Min(i * c + c, |s|)]
  {
    ChunkSpan(s, c, i);
    OffsetIsProduct(i, c);
    OffsetIsProduct(i + 1, c);
  }

  /** `ChunkAt` read against the chunks laid end to end. */
  lemma ChunkInFlatten<T>(s: seq<T>, c: nat, i: nat)
    requires c > 0 && i < |Chunks(s, c)|
    ensures i * c < |Flatten(Chunks(s, c))|
    ensures Chunks(s, c)[i] == Flatten(Chunks(s, c))[i * c .. Min(i * c + c, |Flatten(Chunks(s, c))|)]
  {
    FlattenChunks(s, c);
    ChunkAt(s, c, i);
  }

  /** Where chunk `i` starts: `i` whole chunks of `c` precede it. */
  function Offset(i: nat, c: nat): nat {
    if i == 0 then 0 else Offset(i - 1, c) + c
  }

  lemma {:induction false} OffsetIsProduct(i: nat, c: nat)
    ensures Offset(i, c) == i * c
  {
    if i > 0 {
      OffsetIsProduct(i - 1, c);
      assert (i - 1) * c + c == i * c;
    }
  }

  /** `ChunkAt` with the offsets counted by addition. */
  lemma {:induction false} ChunkSpan<T>(s: seq<T>, c: nat, i: nat)
    requires c > 0 && i < |Chunks(s, c)|
    ensures Offset(i, c) < |s|
    ensures Chunks(s, c)[i] == s[Offset(i, c) .. Min(Offset(i + 1, c), |s|)]
    decreases |s|
  {
    if i == 0 {
      ChunkFirst(s, c);
      assert Offset(1, c) == c;
    } else {
      ChunkTail(s, c);
      ChunkSpan(s[c..], c, i - 1);
      var lo, hi := Offset(i - 1, c), Min(Offset(i, c), |s| - c);
      assert lo + c == Offset(i, c);
      assert hi + c == Min(Offset(i + 1, c), |s|);
      assert Chunks(s, c)[i] == Chunks(s[c..], c)[i - 1];
      SliceOfSuffix(s, c, lo, hi);
      SameSlice(s, lo + c, hi + c, Offset(i, c), Min(Offset(i + 1, c), |s|));
    }
  }

  lemma SameSlice<T>(s: seq<T>, lo: nat, hi: nat, lo': nat, hi': nat)
    requires lo <= hi <= |s| && lo == lo' && hi == hi'
    ensures s[lo..hi] == s[lo'..hi']
  {
  }

  lemma SliceOfSuffix<T>(s: seq<T>, c: nat, lo: nat, hi: nat)
    requires c <= |s| && lo <= hi <= |s| - c
    ensures s[c..][lo..hi] == s[lo + c .. hi + c]
  {
  }

  /** The first chunk is the first `c` elements, or all of them if fewer. */
  lemma ChunkFirst<T>(s: seq<T>, c: nat)
    requires c > 0 && 0 < |Chunks(s, c)|
    ensures 0 < |s| && Chunks(s, c)[0] == s[0 .. Min(c, |s|)]
  {
  }

  /** Past the first chunk, the chunks of `s` are those of `s[c..]`. */
  lemma ChunkTail<T>(s: seq<T>, c: nat)
    requires c > 0 && |Chunks(s, c)| > 1
    ensures |s| > c
    ensures Chunks(s, c) == [s[..c]] + Chunks(s[c..], c)
  {
  }
}
