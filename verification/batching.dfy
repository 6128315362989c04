/** Which message ids a fetch keeps and in what order it visits them: the
    most recent `maxEmails` ids, cut into consecutive batches of `batchSize`,
    each batch walked back to front. The result is newest-first only inside
    a batch; the batches themselves stay oldest first. */
module Batching {
  import opened Common

  /** The index at which Python's `xs[a:]` starts on a list of length `n`. */
  function SliceStart(a: int, n: nat): (start: nat)
    ensures start <= n
    ensures 0 <= a ==> start == Min(a, n)
    ensures a < 0 ==> start + Min(-a, n) == n
  {
    if a >= 0 then Min(a, n)
    else if n + a < 0 then 0
    else n + a
  }

  /** `ids[-max:] if len(ids) > max else ids`: a suffix of the listed ids. */
  function Latest<T>(ids: seq<T>, max: int): (kept: seq<T>)
    ensures |kept| <= |ids| && kept == ids[|ids| - |kept|..]
  {
    if |ids| > max then ids[SliceStart(-max, |ids|)..] else ids
  }

  /** `reversed(xs)`. */
  function Reverse<T>(xs: seq<T>): (r: seq<T>)
  {
    seq(|xs|, i requires 0 <= i < |xs| => xs[|xs| - 1 - i])
  }

  /** The concatenation of a sequence of sequences, front to back. */
  function Flatten<T>(xss: seq<seq<T>>): seq<T>
    decreases |xss|
  {
    if xss == [] then [] else xss[0] + Flatten(xss[1..])
  }

  /** The batches of `for i in range(0, len(xs), k): xs[i:i+k]`. */
  function Chunks<T>(xs: seq<T>, k: int): (cs: seq<seq<T>>)
    requires k > 0
    ensures Flatten(cs) == xs
    ensures cs == [] <==> xs == []
    ensures forall i :: 0 <= i < |cs| ==> 0 < |cs[i]| <= k
    ensures forall i :: 0 <= i && i + 1 < |cs| ==> |cs[i]| == k
    decreases |xs|
  {
    if xs == [] then []
    else
      var m := Min(k, |xs|);
      assert xs == xs[..m] + xs[m..];
      [xs[..m]] + Chunks(xs[m..], k)
  }

  /** Each batch reversed, batches kept in order. */
  function ReverseEach<T>(xss: seq<seq<T>>): (r: seq<seq<T>>)
    ensures |r| == |xss|
    decreases |xss|
  {
    if xss == [] then [] else [Reverse(xss[0])] + ReverseEach(xss[1..])
  }

  /** The order in which the fetch visits `xs` with batch size `k`. */
  function BatchOrder<T>(xs: seq<T>, k: int): (r: seq<T>)
    requires k > 0
    ensures |r| == |xs|
    decreases |xs|
  {
    if xs == [] then []
    else
      var m := Min(k, |xs|);
      Reverse(xs[..m]) + BatchOrder(xs[m..], k)
  }

  lemma {:induction false} BatchOrderUnfold<T>(xs: seq<T>, k: int)
    requires k > 0 && xs != []
    ensures BatchOrder(xs, k) == Reverse(xs[..Min(k, |xs|)]) + BatchOrder(xs[Min(k, |xs|)..], k)
  {
  }

  lemma {:induction false} ReverseAt<T>(xs: seq<T>, i: nat)
    requires i < |xs|
    ensures |Reverse(xs)| == |xs| && Reverse(xs)[i] == xs[|xs| - 1 - i]
  {
  }

  /** Reversing keeps every element, each as often as before. */
  lemma {:induction false} ReverseKeepsElements<T>(xs: seq<T>)
    ensures multiset(Reverse(xs)) == multiset(xs)
    decreases |xs|
  {
    if xs != [] {
      ReverseKeepsElements(xs[1..]);
      assert Reverse(xs) == Reverse(xs[1..]) + [xs[0]];
      assert xs == [xs[0]] + xs[1..];
    }
  }

  lemma {:induction false} SplitElements<T>(xs: seq<T>, m: nat)
    requires m <= |xs|
    ensures multiset(xs) == multiset(xs[..m]) + multiset(xs[m..])
  {
    assert xs == xs[..m] + xs[m..];
  }

  /** Every id is visited exactly once: the visiting order is a permutation. */
  lemma {:induction false} BatchOrderPermutes<T>(xs: seq<T>, k: int)
    requires k > 0
    ensures multiset(BatchOrder(xs, k)) == multiset(xs)
    decreases |xs|
  {
    if xs != [] {
      var m := Min(k, |xs|);
      var head, tail := xs[..m], xs[m..];
      BatchOrderUnfold(xs, k);
      ReverseKeepsElements(head);
      BatchOrderPermutes(tail, k);
      SplitElements(xs, m);
      assert BatchOrder(xs, k) == Reverse(head) + BatchOrder(tail, k);
    }
  }

  /** Which ids are kept: with a positive limit, exactly the last
      `min(n, max)` of the `n` listed ids, in listed order, and all of them
      when there are at most `max`. A limit of 0 keeps every id (`ids[-0:]` is
      the whole list) and a negative limit drops the first `-max` ids. */
  lemma {:induction false} LatestSpec<T>(ids: seq<T>, max: int)
    ensures max >= 1 ==> Latest(ids, max) == ids[|ids| - Min(|ids|, max)..]
    ensures |ids| <= max ==> Latest(ids, max) == ids
    ensures max == 0 ==> Latest(ids, max) == ids
    ensures max < 0 ==> Latest(ids, max) == ids[Min(-max, |ids|)..]
  {
  }

  /** The visiting order is the batches of `Chunks`, each reversed, joined in order. */
  lemma {:induction false} BatchOrderIsReversedChunks<T>(xs: seq<T>, k: int)
    requires k > 0
    ensures BatchOrder(xs, k) == Flatten(ReverseEach(Chunks(xs, k)))
    decreases |xs|
  {
    if xs != [] {
      var m := Min(k, |xs|);
      var cs := Chunks(xs, k);
      assert cs[0] == xs[..m] && cs[1..] == Chunks(xs[m..], k);
      BatchOrderIsReversedChunks(xs[m..], k);
    }
  }

  /** The first batch is visited back to front. */
  lemma {:induction false} BatchOrderHead<T>(xs: seq<T>, k: int, r: nat)
    requires k > 0 && r < Min(k, |xs|)
    ensures BatchOrder(xs, k)[r] == xs[Min(k, |xs|) - 1 - r]
  {
    var m := Min(k, |xs|);
    BatchOrderUnfold(xs, k);
    ReverseAt(xs[..m], r);
    assert xs[..m][m - 1 - r] == xs[m - 1 - r];
  }

  /** Past the first full batch, the visiting order is that of the remaining ids. */
  lemma {:induction false} BatchOrderShift<T>(xs: seq<T>, k: int, j: nat)
    requires 0 < k <= j < |xs|
    ensures BatchOrder(xs, k)[j] == BatchOrder(xs[k..], k)[j - k]
  {
    assert Min(k, |xs|) == k;
    BatchOrderUnfold(xs, k);
    var a := Reverse(xs[..k]);
    var b := BatchOrder(xs[k..], k);
    assert BatchOrder(xs, k) == a + b;
    assert (a + b)[j] == b[j - k];
  }

  /** `start` is one of the values of `range(0, n, k)` that are below `n`:
      a multiple of `k`, reached from 0 in steps of `k`. */
  predicate BatchStart(start: int, k: int)
    requires k > 0
    decreases start
  {
    start == 0 || (start >= k && BatchStart(start - k, k))
  }

  /** Position by position: inside the batch that starts at `start` (and
      holds `min(k, n - start)` ids) the `r`-th visited id is the `r`-th
      from the end of that batch. */
  lemma {:induction false} BatchOrderAt<T>(xs: seq<T>, k: int, start: nat, r: nat)
    requires k > 0 && BatchStart(start, k)
    requires start < |xs| && r < Min(k, |xs| - start)
    ensures BatchOrder(xs, k)[start + r] == xs[start + Min(k, |xs| - start) - 1 - r]
    decreases start, 1
  {
    if start == 0 {
      BatchOrderHead(xs, k, r);
    } else {
      BatchOrderAtLater(xs, k, start, r, Min(k, |xs| - start));
    }
  }

  /** The inductive step of `BatchOrderAt`: a batch past the first, of
      length `len`, is found one batch earlier among the remaining ids. */
  lemma {:induction false} BatchOrderAtLater<T>(xs: seq<T>, k: int, start: nat, r: nat, len: nat)
    requires k > 0 && start >= k && BatchStart(start - k, k)
    requires start < |xs| && len == Min(k, |xs| - start) && r < len
    ensures BatchOrder(xs, k)[start + r] == xs[start + len - 1 - r]
    decreases start, 0
  {
    var rest := xs[k..];
    assert len == Min(k, |rest| - (start - k));
    calc {
      BatchOrder(xs, k)[start + r];
      { BatchOrderShift(xs, k, start + r); }
      BatchOrder(rest, k)[start - k + r];
      { BatchOrderAt(rest, k, start - k, r); }
      rest[start - k + len - 1 - r];
    }
  }

  /** The ordering example: ids 1..7 in batches of 3 are visited as 3,2,1,6,5,4,7. */
  lemma {:induction false} SevenIdsInBatchesOfThree()
    ensures BatchOrder([1, 2, 3, 4, 5, 6, 7], 3) == [3, 2, 1, 6, 5, 4, 7]
  {
    var xs := [1, 2, 3, 4, 5, 6, 7];
    var ys := [4, 5, 6, 7];
    assert xs[..3] == [1, 2, 3] && xs[3..] == ys;
    assert ys[..3] == [4, 5, 6] && ys[3..] == [7];
    var last := BatchOrder([7], 3);
    assert last == [7];
    var tail := BatchOrder(ys, 3);
    assert tail == Reverse([4, 5, 6]) + last;
    assert tail == [6, 5, 4, 7];
    assert BatchOrder(xs, 3) == Reverse([1, 2, 3]) + tail;
  }
}
