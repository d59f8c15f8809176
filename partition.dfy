/**
 * `split_list` (getdata.py): cut a list of symbols into `n` contiguous chunks
 * whose sizes differ by at most one, the first `len % n` chunks one longer.
 */
module Partition {
  import opened Seqs

  /** The chunks concatenated in order. */
  function Flatten<T>(chunks: seq<seq<T>>): seq<T>
  {
    if |chunks| == 0 then [] else Flatten(chunks[..|chunks| - 1]) + chunks[|chunks| - 1]
  }

  lemma {:induction false} FlattenAppend<T>(a: seq<seq<T>>, b: seq<seq<T>>)
    ensures Flatten(a + b) == Flatten(a) + Flatten(b)
  {
    if |b| == 0 {
      assert a + b == a;
    } else {
      assert (a + b)[..|a + b| - 1] == a + b[..|b| - 1];
      FlattenAppend(a, b[..|b| - 1]);
    }
  }

  /** Where chunk `i` starts: `i * k + min(i, m)` with `(k, m) = divmod(len, n)`. */
  function ChunkStart(i: int, k: int, m: int): int { i * k + Min(i, m) }

  /** `i * k` grows with `i` for `k >= 0`, from `0` up to `n * k`. */
  lemma {:induction false} ScaledBounds(i: int, n: int, k: int)
    requires 0 <= i <= n && k >= 0
    ensures 0 <= i * k <= n * k
    decreases n - i
  {
    if i < n {
      ScaledBounds(i + 1, n, k);
      assert (i + 1) * k == i * k + k;
    }
  }

  lemma ChunkStartBounds(len: nat, n: int, i: int)
    requires n > 0 && 0 <= i <= n
    ensures 0 <= ChunkStart(i, len / n, len % n) <= len
    ensures i == n ==> ChunkStart(i, len / n, len % n) == len
    ensures i < n ==> ChunkStart(i + 1, len / n, len % n)
                      == ChunkStart(i, len / n, len % n) + len / n + (if i < len % n then 1 else 0)
  {
    var k, m := len / n, len % n;
    assert len == n * k + m && 0 <= m < n && k >= 0;
    ScaledBounds(i, n, k);
    assert (i + 1) * k == i * k + k;
    assert ChunkStart(i, k, m) == i * k + Min(i, m);
    assert ChunkStart(i + 1, k, m) == (i + 1) * k + Min(i + 1, m);
  }

  /** Chunk `i` of `split_list(lst, n)`: `lst[i*k + min(i, m) : (i+1)*k + min(i+1, m)]`. */
  function Chunk<T>(lst: seq<T>, n: int, i: int): (c: seq<T>)
    requires 0 <= i < n
    ensures |c| == |lst| / n + (if i < |lst| % n then 1 else 0)
  {
    ChunkStartBounds(|lst|, n, i);
    ChunkStartBounds(|lst|, n, i + 1);
    lst[ChunkStart(i, |lst| / n, |lst| % n)..ChunkStart(i + 1, |lst| / n, |lst| % n)]
  }

  /**
   * `split_list(lst, n)`. Python raises ZeroDivisionError for `n == 0`; the only
   * caller passes `max(1, num_threads - 1)`, so `n > 0` is required.
   */
  function SplitList<T>(lst: seq<T>, n: int): (chunks: seq<seq<T>>)
    requires n > 0
    ensures |chunks| == n
    ensures forall i :: 0 <= i < n ==> |chunks[i]| == |lst| / n + (if i < |lst| % n then 1 else 0)
  {
    seq(n, i requires 0 <= i < n => Chunk(lst, n, i))
  }

  /** Balance: any two chunk sizes differ by at most one, and a later chunk is never longer. */
  lemma SplitListBalanced<T>(lst: seq<T>, n: int)
    requires n > 0
    ensures forall i, j :: 0 <= i < n && 0 <= j < n ==> |SplitList(lst, n)[i]| <= |SplitList(lst, n)[j]| + 1
    ensures forall i, j :: 0 <= i <= j < n ==> |SplitList(lst, n)[j]| <= |SplitList(lst, n)[i]|
  {
  }

  /** The first `j` chunks, concatenated, are the list up to where chunk `j` starts. */
  lemma {:induction false} SplitListPrefix<T>(lst: seq<T>, n: int, j: int)
    requires n > 0 && 0 <= j <= n
    ensures 0 <= ChunkStart(j, |lst| / n, |lst| % n) <= |lst|
    ensures Flatten(SplitList(lst, n)[..j]) == lst[..ChunkStart(j, |lst| / n, |lst| % n)]
  {
    var k, m := |lst| / n, |lst| % n;
    var chunks := SplitList(lst, n);
    ChunkStartBounds(|lst|, n, j);
    if j == 0 {
      assert chunks[..0] == [];
    } else {
      var p0, p1 := ChunkStart(j - 1, k, m), ChunkStart(j, k, m);
      SplitListPrefix(lst, n, j - 1);
      ChunkStartBounds(|lst|, n, j - 1);
      assert chunks[j - 1] == lst[p0..p1];
      FlattenStep(chunks, lst, j, p0, p1);
    }
  }

  /** One more chunk: if the first `j - 1` chunks spell `lst[..p0]` and chunk `j - 1` is `lst[p0..p1]`, the first `j` spell `lst[..p1]`. */
  lemma FlattenStep<T>(chunks: seq<seq<T>>, lst: seq<T>, j: int, p0: int, p1: int)
    requires 0 < j <= |chunks| && 0 <= p0 <= p1 <= |lst|
    requires Flatten(chunks[..j - 1]) == lst[..p0]
    requires chunks[j - 1] == lst[p0..p1]
    ensures Flatten(chunks[..j]) == lst[..p1]
  {
    assert chunks[..j][..j - 1] == chunks[..j - 1];
    assert lst[..p0] + lst[p0..p1] == lst[..p1];
  }

  /** Coverage: the chunks concatenated give back the list, so nothing is dropped, repeated or reordered. */
  lemma SplitListCovers<T>(lst: seq<T>, n: int)
    requires n > 0
    ensures Flatten(SplitList(lst, n)) == lst
  {
    var chunks := SplitList(lst, n);
    SplitListPrefix(lst, n, n);
    assert chunks[..|chunks|] == chunks;
    assert ChunkStart(n, |lst| / n, |lst| % n) == |lst|;
    assert lst[..|lst|] == lst;
  }
}
