/** The batching policy of the producer loop in bmo.go, stated on values.
    Decoded documents are cut, in arrival order, into batches of
    InsertBatchSize; whatever is pending when the stream stops is submitted
    as a last batch, which is empty when the number of documents is a
    multiple of InsertBatchSize (the empty stream included). */
module Batching {

  /** Documents per insert request (bmo.go:49). */
  const InsertBatchSize: nat := 200

  /** Every batch the producer submits for the documents xs, in submission
      order: the full batches, then the pending rest. */
  function Batches<T>(xs: seq<T>): (bs: seq<seq<T>>)
    ensures |bs| == |xs| / InsertBatchSize + 1
    ensures forall i :: 0 <= i < |bs| - 1 ==> |bs[i]| == InsertBatchSize
    ensures |bs[|bs| - 1]| == |xs| % InsertBatchSize
    decreases |xs|
  {
    if |xs| < InsertBatchSize then [xs]
    else [xs[..InsertBatchSize]] + Batches(xs[InsertBatchSize..])
  }

  /** The full batches: those submitted mid-stream, each when the last slot
      of the buffer is filled. */
  function Sealed<T>(xs: seq<T>): seq<seq<T>>
    decreases |xs|
  {
    if |xs| < InsertBatchSize then []
    else [xs[..InsertBatchSize]] + Sealed(xs[InsertBatchSize..])
  }

  /** The documents sitting in the buffer since the last full batch. */
  function Pending<T>(xs: seq<T>): seq<T>
    decreases |xs|
  {
    if |xs| < InsertBatchSize then xs else Pending(xs[InsertBatchSize..])
  }

  /** Concatenation of batches in submission order. */
  function Flatten<T>(bs: seq<seq<T>>): seq<T>
  {
    if bs == [] then [] else bs[0] + Flatten(bs[1..])
  }

  /** What is submitted is the full batches followed by the pending rest. */
  lemma {:induction false} BatchesSplit<T>(xs: seq<T>)
    ensures Batches(xs) == Sealed(xs) + [Pending(xs)]
    decreases |xs|
  {
    if |xs| >= InsertBatchSize {
      BatchesSplit(xs[InsertBatchSize..]);
    }
  }

  /** One more decoded document: it goes into the slot after the pending ones.
      A full batch is sealed exactly when that slot is the last one
      (InsertBatchSize - 1), and that batch then holds InsertBatchSize
      documents; otherwise nothing is sealed. */
  lemma {:induction false} Snoc<T>(xs: seq<T>, x: T)
    ensures |Pending(xs)| == |xs| % InsertBatchSize
    ensures |Pending(xs)| + 1 == InsertBatchSize ==>
              Sealed(xs + [x]) == Sealed(xs) + [Pending(xs) + [x]]
              && |Pending(xs) + [x]| == InsertBatchSize
              && Pending(xs + [x]) == []
    ensures |Pending(xs)| + 1 < InsertBatchSize ==>
              Sealed(xs + [x]) == Sealed(xs)
              && Pending(xs + [x]) == Pending(xs) + [x]
    decreases |xs|
  {
    var ys := xs + [x];
    if |xs| < InsertBatchSize {
      if |ys| < InsertBatchSize {
        assert Batches(ys) == [ys];
      } else {
        assert ys[..InsertBatchSize] == ys && ys[InsertBatchSize..] == [];
        assert Batches(ys) == [ys, []];
      }
    } else {
      var rest := xs[InsertBatchSize..];
      assert ys[..InsertBatchSize] == xs[..InsertBatchSize];
      assert ys[InsertBatchSize..] == rest + [x];
      Snoc(rest, x);
    }
  }

  lemma FlattenAppend<T>(a: seq<seq<T>>, b: seq<seq<T>>)
    ensures Flatten(a + b) == Flatten(a) + Flatten(b)
  {
    if a == [] {
      assert a + b == b;
    } else {
      assert (a + b)[1..] == a[1..] + b;
      FlattenAppend(a[1..], b);
    }
  }

  /** Round trip: the submitted batches, concatenated in submission order,
      are exactly the decoded documents in decode order. */
  lemma {:induction false} FlattenBatches<T>(xs: seq<T>)
    ensures Flatten(Batches(xs)) == xs
    decreases |xs|
  {
    if |xs| < InsertBatchSize {
      assert Flatten(Batches(xs)) == xs + Flatten([]);
    } else {
      var head, rest := xs[..InsertBatchSize], xs[InsertBatchSize..];
      FlattenBatches(rest);
      FlattenAppend([head], Batches(rest));
      assert Flatten([head]) == head + Flatten([]);
      assert head + rest == xs;
    }
  }

  /** The document with sequence number p lands in batch p / InsertBatchSize
      at slot p % InsertBatchSize, and in no other place: each position of
      the input has exactly one (batch, slot) pair. */
  lemma {:induction false} BatchAt<T>(xs: seq<T>, p: nat)
    requires p < |xs|
    ensures p / InsertBatchSize < |Batches(xs)|
    ensures p % InsertBatchSize < |Batches(xs)[p / InsertBatchSize]|
    ensures Batches(xs)[p / InsertBatchSize][p % InsertBatchSize] == xs[p]
    decreases |xs|
  {
    if |xs| >= InsertBatchSize && p >= InsertBatchSize {
      var rest := xs[InsertBatchSize..];
      BatchAt(rest, p - InsertBatchSize);
      assert (p - InsertBatchSize) / InsertBatchSize == p / InsertBatchSize - 1;
      assert (p - InsertBatchSize) % InsertBatchSize == p % InsertBatchSize;
      assert Batches(xs) == [xs[..InsertBatchSize]] + Batches(rest);
    }
  }
}
