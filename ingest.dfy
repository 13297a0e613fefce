/** The producer side of BMO.Compute in bmo.go: the table-existence check,
    then the decode loop that numbers each document, writes it into a
    200-slot buffer at slot seq % 200 and hands slices of that buffer to the
    insert pool. The store and the pool are recorders: TableCreate is a
    recorded table name and pool.Process appends a snapshot of its slice. */
module Ingest {
  import opened Batching

  /** A buffer slot: Go's nil interface (the zero value of a fresh slot) or a
      decoded JSON document, kept opaque as its text. */
  datatype Message = Nil | Doc(json: string)

  /** The outcome of one call of the JSON stream decoder. */
  datatype Decoded = Value(json: string) | Eof | Error(cause: string)

  /** How Compute ends: it returns at end of stream, or log.Fatal ends the
      process, reporting the number of the object that failed to decode. */
  datatype Exit = Finished | Fatal(object: nat)

  /** What the decoder yields at cursor k: once the bytes run out at a clean
      boundary it reports end of stream. */
  function Next(input: seq<Decoded>, k: nat): Decoded
  {
    if k < |input| then input[k] else Eof
  }

  /** The number of documents decoded before the first end of stream or
      decode error. */
  function Leading(input: seq<Decoded>): (n: nat)
    ensures n <= |input|
    ensures forall k :: 0 <= k < n ==> input[k].Value?
    ensures n < |input| ==> !input[n].Value?
  {
    if input == [] || !input[0].Value? then 0 else 1 + Leading(input[1..])
  }

  /** The first k documents the decoder delivers, in decode order. */
  function Prefix(input: seq<Decoded>, k: nat): seq<Message>
    requires k <= Leading(input)
  {
    if k == 0 then [] else Prefix(input, k - 1) + [Doc(input[k - 1].json)]
  }

  /** All the documents the decoder delivers before it stops. */
  function Documents(input: seq<Decoded>): seq<Message>
  {
    Prefix(input, Leading(input))
  }

  /** The k-th document delivered is the k-th value of the stream, and there
      are as many documents as values before the first stop. */
  lemma {:induction false} PrefixAt(input: seq<Decoded>, n: nat, k: nat)
    requires k < n <= Leading(input)
    ensures |Prefix(input, n)| == n
    ensures Prefix(input, n)[k] == Doc(input[k].json)
  {
    if k < n - 1 {
      PrefixAt(input, n - 1, k);
    } else if n > 1 {
      PrefixAt(input, n - 1, 0);
    }
  }

  /** The documents are the leading values of the stream, one per value, in
      stream order. */
  lemma DocumentsAre(input: seq<Decoded>)
    ensures |Documents(input)| == Leading(input)
    ensures forall k :: 0 <= k < Leading(input) ==> Documents(input)[k] == Doc(input[k].json)
  {
    var n := Leading(input);
    if n > 0 {
      PrefixAt(input, n, 0);
    }
    forall k | 0 <= k < n
      ensures Documents(input)[k] == Doc(input[k].json)
    {
      PrefixAt(input, n, k);
    }
  }

  /** A stream of values vs followed by a stop d (end of stream or error) and
      anything else: exactly the values of vs are delivered, in order, and
      what follows d plays no part. */
  lemma {:induction false} StopsAfter(vs: seq<Decoded>, d: Decoded, rest: seq<Decoded>)
    requires forall k :: 0 <= k < |vs| ==> vs[k].Value?
    requires !d.Value?
    ensures Leading(vs + [d] + rest) == |vs|
    ensures |Documents(vs + [d] + rest)| == |vs|
    ensures forall k :: 0 <= k < |vs| ==> Documents(vs + [d] + rest)[k] == Doc(vs[k].json)
    decreases |vs|
  {
    var input := vs + [d] + rest;
    if vs == [] {
      assert input[0] == d;
    } else {
      assert input[0] == vs[0];
      assert input[1..] == vs[1..] + [d] + rest;
      StopsAfter(vs[1..], d, rest);
    }
    DocumentsAre(input);
  }

  /** How the decode loop ends when the counter started at `start`. */
  function Ending(input: seq<Decoded>, start: nat): Exit
  {
    var n := Leading(input);
    if n < |input| && input[n].Error? then Fatal(start + n) else Finished
  }

  /** The n untouched slots in front of the first document when the counter
      does not start at a multiple of InsertBatchSize. */
  function Padding(n: nat): seq<Message>
  {
    seq(n, _ => Nil)
  }

  /** The slot that receives document number s: always inside the buffer,
      the one after the slot of document s - 1, wrapping after the last. */
  lemma NextSlot(s: nat)
    ensures s % InsertBatchSize < InsertBatchSize
    ensures (s + 1) % InsertBatchSize ==
            if s % InsertBatchSize == InsertBatchSize - 1 then 0 else s % InsertBatchSize + 1
  {
  }

  /** Decoding stops at the first end of stream or error: what follows it is
      never decoded, so it changes neither the documents nor the ending. */
  lemma {:induction false} NothingAfterStop(input: seq<Decoded>, rest: seq<Decoded>)
    requires Leading(input) < |input|
    ensures Leading(input + rest) == Leading(input)
    ensures Documents(input + rest) == Documents(input)
    ensures forall start: nat :: Ending(input + rest, start) == Ending(input, start)
  {
    if input[0].Value? {
      assert (input + rest)[1..] == input[1..] + rest;
      NothingAfterStop(input[1..], rest);
    }
    var n := Leading(input);
    assert (input + rest)[n] == input[n];
    PrefixSame(input, input + rest, n);
  }

  lemma {:induction false} PrefixSame(a: seq<Decoded>, b: seq<Decoded>, n: nat)
    requires n <= Leading(a) && n <= Leading(b)
    requires a[..n] == b[..n]
    ensures Prefix(a, n) == Prefix(b, n)
  {
    if n > 0 {
      assert a[..n - 1] == b[..n - 1] && a[n - 1] == a[..n][n - 1];
      PrefixSame(a, b, n - 1);
    }
  }

  /** When the decoder reports the end of stream or an error at cursor k, the
      documents decoded so far are all of them, and the ending follows the
      outcome at k. */
  lemma StopAt(input: seq<Decoded>, k: nat, start: nat)
    requires k <= Leading(input) && !Next(input, k).Value?
    ensures k == Leading(input)
    ensures Ending(input, start) == if Next(input, k).Eof? then Finished else Fatal(start + k)
  {
  }

  /** A decode error after k values ends the loop with a fatal error that
      names object start + k; end of stream ends it normally. */
  lemma StopOutcome(vs: seq<Decoded>, d: Decoded, rest: seq<Decoded>, start: nat)
    requires forall k :: 0 <= k < |vs| ==> vs[k].Value?
    requires !d.Value?
    ensures Ending(vs + [d] + rest, start) == if d.Error? then Fatal(start + |vs|) else Finished
  {
    StopsAfter(vs, d, rest);
    assert (vs + [d] + rest)[|vs|] == d;
  }

  /** An empty stream still ends with one submission, of the empty batch:
      the end-of-stream branch submits the filled prefix of the buffer
      whatever its length. */
  lemma EmptyStream()
    ensures Batches(Documents([])) == [[]]
    ensures Ending([], 0) == Finished
  {
  }

  /** The tunny worker pool, reduced to the record of what was submitted. */
  class Pool {
    var batches: seq<seq<Message>>

    constructor ()
      ensures batches == []
    {
      batches := [];
    }

    /** Submits one batch; the pool records a snapshot of it. */
    method Process(batch: seq<Message>)
      modifies this
      ensures batches == old(batches) + [batch]
    {
      batches := batches + [batch];
    }
  }

  /** The body of the decode loop once document m is decoded at slot i: it
      is written into the buffer and, when that slot is the last one, the
      whole buffer is submitted. The buffer keeps holding the pending
      documents, and the pool has received exactly the full batches. */
  method Store(ms: array<Message>, pool: Pool, i: nat, m: Message, ghost xs: seq<Message>)
    requires i < ms.Length == InsertBatchSize && i == |Pending(xs)|
    requires pool.batches == Sealed(xs)
    requires forall k :: 0 <= k < i ==> ms[k] == Pending(xs)[k]
    modifies ms, pool
    ensures pool.batches == Sealed(xs + [m])
    ensures |Pending(xs + [m])| == if i + 1 == InsertBatchSize then 0 else i + 1
    ensures forall k :: 0 <= k < |Pending(xs + [m])| ==> ms[k] == Pending(xs + [m])[k]
  {
    var j := i;
    Snoc(xs, m);
    ms[i] := m;
    if i + 1 == InsertBatchSize {
      j := j + 1;
      assert ms[..j] == Pending(xs) + [m];
      pool.Process(ms[..j]);
    }
  }

  /** The decoder reported end of stream or an error at cursor k, with xs
      the padding and the documents decoded so far: those are all the
      documents, the ending follows the outcome at k, and the batches of the
      stream are the full ones already submitted plus the pending rest. */
  lemma Finish(input: seq<Decoded>, pad: seq<Message>, k: nat, xs: seq<Message>, start: nat)
    requires k <= Leading(input) && !Next(input, k).Value? && xs == pad + Prefix(input, k)
    ensures k == Leading(input)
    ensures Ending(input, start) == if Next(input, k).Eof? then Finished else Fatal(start + k)
    ensures Batches(pad + Documents(input)) == Sealed(xs) + [Pending(xs)]
  {
    StopAt(input, k, start);
    BatchesSplit(xs);
  }

  class Bmo {
    const nodes: seq<string>
    const database: string
    const table: string
    /** The sequence counter: number of the next document to decode. */
    var seqNo: nat

    /** NewBMO: the counter starts at 0. */
    constructor (nodes: seq<string>, database: string, table: string)
      ensures this.nodes == nodes && this.database == database && this.table == table
      ensures seqNo == 0
    {
      this.nodes := nodes;
      this.database := database;
      this.table := table;
      seqNo := 0;
    }

    /** The table check: the listed names are loaded into a map, and creation
        is asked for exactly when the target table is not among them. */
    method EnsureTable(tableNames: seq<string>) returns (create: bool)
      ensures create <==> table !in tableNames
    {
      var names: map<string, bool> := map[];
      for k := 0 to |tableNames|
        invariant forall v :: v in names <==> v in tableNames[..k]
        invariant forall v :: v in names ==> names[v]
      {
        names := names[tableNames[k] := true];
      }
      assert tableNames[..|tableNames|] == tableNames;
      var present := if table in names then names[table] else false;
      create := !present;
    }

    /** Compute: the table check, then the decode loop. */
    method Compute(tableNames: seq<string>, input: seq<Decoded>)
      returns (created: seq<string>, exit: Exit, pool: Pool)
      modifies this
      ensures fresh(pool)
      ensures created == if table in tableNames then [] else [table]
      ensures seqNo == old(seqNo) + Leading(input)
      ensures exit == Ending(input, old(seqNo))
      ensures pool.batches == Batches(Padding(old(seqNo) % InsertBatchSize) + Documents(input))
    {
      var create := EnsureTable(tableNames);
      created := [];
      if create {
        created := [table];
      }
      exit, pool := Deliver(input);
    }

    /** The decode loop of Compute. Every document is numbered by the counter
        and written at slot seqNo % InsertBatchSize; the whole buffer is
        submitted when its last slot is filled, and the filled prefix
        (possibly empty) is submitted when the stream ends or fails. */
    method Deliver(input: seq<Decoded>) returns (exit: Exit, pool: Pool)
      modifies this
      ensures fresh(pool)
      ensures seqNo == old(seqNo) + Leading(input)
      ensures exit == Ending(input, old(seqNo))
      ensures pool.batches == Batches(Padding(old(seqNo) % InsertBatchSize) + Documents(input))
    {
      var ms := new Message[InsertBatchSize](_ => Nil);
      pool := new Pool();
      ghost var start := seqNo;
      ghost var pad := Padding(start % InsertBatchSize);
      ghost var xs := pad;
      var read := 0;
      while true
        invariant seqNo == start + read
        invariant read <= Leading(input)
        invariant xs == pad + Prefix(input, read)
        invariant pool.batches == Sealed(xs)
        invariant |Pending(xs)| == seqNo % InsertBatchSize
        invariant forall k :: 0 <= k < |Pending(xs)| ==> ms[k] == Pending(xs)[k]
        decreases |input| - read
      {
        var i := seqNo % InsertBatchSize;
        var d := Next(input, read);
        if !d.Value? {
          Finish(input, pad, read, xs, start);
          assert ms[..i] == Pending(xs);
          pool.Process(ms[..i]);
          exit := if d.Eof? then Finished else Fatal(seqNo);
          return;
        }
        Store(ms, pool, i, Doc(d.json), xs);
        NextSlot(seqNo);
        xs := xs + [Doc(d.json)];
        assert xs == pad + Prefix(input, read + 1);
        read := read + 1;
        seqNo := seqNo + 1;
      }
    }
  }

  /** The end of main: a fresh BMO computes over the input, so the counter
      starts at 0 and the batches are exactly those of the documents. */
  method Run(nodes: seq<string>, database: string, table: string,
             tableNames: seq<string>, input: seq<Decoded>)
    returns (created: seq<string>, exit: Exit, pool: Pool)
    ensures created == if table in tableNames then [] else [table]
    ensures exit == Ending(input, 0)
    ensures pool.batches == Batches(Documents(input))
    ensures |pool.batches| == Leading(input) / InsertBatchSize + 1
    ensures Flatten(pool.batches) == Documents(input)
  {
    var bmo := new Bmo(nodes, database, table);
    created, exit, pool := bmo.Compute(tableNames, input);
    assert Padding(0) + Documents(input) == Documents(input);
    DocumentsAre(input);
    FlattenBatches(Documents(input));
  }
}
