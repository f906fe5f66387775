/** The "flush every 200 rows, then a final non-empty remainder" discipline shared by the
    product sync, the category sync and the supplier import. */
module Chunking {

  /** Size of one flushed batch. */
  const BATCH_SIZE: nat := 200

  function Flatten<T>(cs: seq<seq<T>>): seq<T> {
    if cs == [] then [] else cs[0] + Flatten(cs[1..])
  }

  /** The batches in which a stream is flushed: full batches of `n`, and a last, non-empty
      batch of at most `n`. */
  function Chunks<T>(s: seq<T>, n: nat): seq<seq<T>>
    requires n > 0
    decreases |s|
  {
    if s == [] then []
    else if |s| <= n then [s]
    else [s[..n]] + Chunks(s[n..], n)
  }

  /** The chunks partition the stream in order: they concatenate back to it, every chunk
      but the last holds exactly `n` items and the last holds between 1 and `n`. */
  lemma {:induction false} ChunksPartition<T>(s: seq<T>, n: nat)
    requires n > 0
    ensures Flatten(Chunks(s, n)) == s
    ensures forall i :: 0 <= i < |Chunks(s, n)| - 1 ==> |Chunks(s, n)[i]| == n
    ensures Chunks(s, n) != [] ==> 1 <= |Chunks(s, n)[|Chunks(s, n)| - 1]| <= n
    ensures Chunks(s, n) == [] <==> s == []
    decreases |s|
  {
    if |s| > n {
      ChunksPartition(s[n..], n);
      assert s[..n] + s[n..] == s;
    }
  }

  lemma {:induction false} FlattenAppend<T>(a: seq<seq<T>>, b: seq<seq<T>>)
    ensures Flatten(a + b) == Flatten(a) + Flatten(b)
  {
    if a == [] {
      assert a + b == b;
    } else {
      assert (a + b)[1..] == a[1..] + b;
      FlattenAppend(a[1..], b);
    }
  }

  /** Total number of items over all chunks. */
  function TotalSize<T>(cs: seq<seq<T>>): nat {
    if cs == [] then 0 else |cs[0]| + TotalSize(cs[1..])
  }

  lemma {:induction false} TotalSizeFlatten<T>(cs: seq<seq<T>>)
    ensures TotalSize(cs) == |Flatten(cs)|
  {
    if cs != [] {
      TotalSizeFlatten(cs[1..]);
    }
  }

  /** The total flushed equals the number of items in the stream. */
  lemma ChunksTotal<T>(s: seq<T>, n: nat)
    requires n > 0
    ensures TotalSize(Chunks(s, n)) == |s|
  {
    ChunksPartition(s, n);
    TotalSizeFlatten(Chunks(s, n));
  }

  /** Chunking a stream whose first part is `k` whole batches chunks the two parts separately. */
  lemma {:induction false} ChunksAppend<T>(a: seq<T>, b: seq<T>, n: nat, k: nat)
    requires n > 0
    requires |a| == k * n
    ensures Chunks(a + b, n) == Chunks(a, n) + Chunks(b, n)
    decreases k
  {
    if k == 0 {
      assert a + b == b;
    } else {
      assert |a| == (k - 1) * n + n;
      if k == 1 {
        if b == [] {
          assert a + b == a;
        } else {
          assert (a + b)[..n] == a;
          assert (a + b)[n..] == b;
        }
      } else {
        assert (k - 1) * n >= n;
        assert (a + b)[..n] == a[..n];
        assert (a + b)[n..] == a[n..] + b;
        ChunksAppend(a[n..], b, n, k - 1);
      }
    }
  }

  /** One step of a flushing loop: appending a flushed batch of `1..n` items to a stream
      already made of `k` whole batches. */
  lemma ChunkStep<T>(done: seq<T>, batch: seq<T>, n: nat, k: nat)
    requires n > 0
    requires |done| == k * n
    requires 0 < |batch| <= n
    ensures Chunks(done + batch, n) == Chunks(done, n) + [batch]
  {
    ChunksAppend(done, batch, n, k);
  }

  /** The items a flushing loop has saved: all of them when the stream ends normally, only the
      full batches already flushed when it raises. */
  function Committed<T>(rs: seq<T>, raised: bool): (c: seq<T>)
    ensures |c| <= |rs| && c == rs[..|c|]
    ensures raised ==> |c| % BATCH_SIZE == 0 && |rs| - |c| < BATCH_SIZE
    ensures !raised ==> c == rs
  {
    if raised then rs[..|rs| - |rs| % BATCH_SIZE] else rs
  }

  /** A raise drops exactly the remainder past the last full batch. */
  lemma CommittedLength<T>(rs: seq<T>, raised: bool)
    ensures |Committed(rs, raised)| == if raised then |rs| - |rs| % BATCH_SIZE else |rs|
  {
  }

  /** Flushing a batch of 1 to 200 items after whole batches, onto a table `rows` and a log
      of saved batches `saved`. */
  lemma FlushStep<T>(rows: seq<T>, saved: seq<seq<T>>, done: seq<T>, batch: seq<T>)
    requires |done| % BATCH_SIZE == 0 && 0 < |batch| <= BATCH_SIZE
    ensures rows + done + batch == rows + (done + batch)
    ensures saved + Chunks(done, BATCH_SIZE) + [batch] == saved + Chunks(done + batch, BATCH_SIZE)
    ensures |batch| == BATCH_SIZE ==> |done + batch| % BATCH_SIZE == 0
  {
    ChunkStep(done, batch, BATCH_SIZE, |done| / BATCH_SIZE);
  }

  /** Taking one more item of `s` into the open batch. */
  lemma Extend<T>(s: seq<T>, i: nat, done: seq<T>, batch: seq<T>)
    requires i < |s| && done + batch == s[..i]
    ensures done + (batch + [s[i]]) == s[..i + 1]
  {
    assert s[..i + 1] == s[..i] + [s[i]];
  }

  /** A raise after whole batches `done` and an open batch `batch` commits exactly `done`. */
  lemma CommittedOnRaise<T>(done: seq<T>, batch: seq<T>)
    requires |done| % BATCH_SIZE == 0 && |batch| < BATCH_SIZE
    ensures Committed(done + batch, true) == done
  {
    RemainderIsMod(|done|, |batch|);
    assert (done + batch)[..|done|] == done;
  }

  lemma RemainderIsMod(flushed: nat, r: nat)
    requires flushed % BATCH_SIZE == 0 && r < BATCH_SIZE
    ensures (flushed + r) % BATCH_SIZE == r
  {
  }
}
