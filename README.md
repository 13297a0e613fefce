# bmo: the producer side of BMO.Compute

bmo reads a stream of JSON documents from standard input and inserts them
into a RethinkDB table, in batches of 200, through a pool of workers. This
project models the part of `bmo.go` that decides what gets inserted, and in
which order.

- **Table check.** The table names the database lists are loaded into a map
  in a loop. A table creation is issued exactly when the target table is
  missing.
- **Decode loop.** A counter on the `BMO` value (`seq`, here `seqNo`, since
  `seq` is a Dafny keyword) starts at 0. Each decoded document goes into slot
  `seq % 200` of a fixed buffer of 200 messages.
  - When the last slot is filled, the whole buffer goes to the pool.
  - At end of stream, the filled prefix `ms[:seq % 200]` goes to the pool and
    the loop returns.
  - On a decode error, the same prefix goes to the pool and the process dies
    with a fatal log line naming object number `seq`.
- **NodeList.** The repeatable `-node` flag appends one address per
  occurrence. Its printed form joins the addresses with `", "`.

The model has three modules:

- `Batching` states the batching policy on values.
  - `Batches(xs)` cuts the documents into full batches plus the pending rest.
  - `Sealed` and `Pending` are those two parts on their own.
  - `Flatten` concatenates batches.
  - Lemmas: the sizes of the batches, the one-document step (`Snoc`), the
    round trip `Flatten(Batches(xs)) == xs`, and the place of every document
    (`BatchAt`).
- `Ingest` models the imperative loop.
  - The JSON decoder is a sequence of outcomes (`Value`, `Eof`, `Error`);
    past its end it reports end of stream.
  - The worker pool is a `Pool` object that records a snapshot of every
    slice it is handed.
  - `Bmo.Deliver` keeps the 200-slot buffer as an `array` and updates the
    `seqNo` field in place. It is proved against `Batches`: the pool receives
    exactly `Batches(Padding(seqNo % 200) + Documents(input))`, where the
    padding is the untouched slots in front of the first document, and the
    counter advances by the number of documents. `Run`, which starts from
    counter 0, has no padding: the pool receives `Batches(Documents(input))`.
  - A fatal decode error is the outcome `Fatal(object)`.
- `Nodes` models `NodeList` as a class over a sequence of addresses, with
  `String` a function and `Set` a method.

`Compute` is proved for any starting counter. When the counter does not start
at a multiple of 200, the first batch begins with untouched slots that hold
Go's zero value (`Nil`). `Run` is the end of `main`: a fresh `BMO` (counter 0)
computes over the input.

At end of stream the code submits the filled prefix whatever its length.
A batcher that submits a final batch only when documents are pending would
submit nothing when the count of decoded documents is a multiple of 200; the
code submits `ms[:0]`, an empty batch, and that includes the empty stream
(`bmo.go:134-135`). The model follows the code: `Batches` always ends with
the pending batch, possibly empty, and `EmptyStream` states the empty case.

## Model

| member | source | states |
|---|---|---|
| Batching.Batches | bmo.go:127-149 | the loop submits `|xs| / 200 + 1` batches; every batch but the last has exactly 200 documents; the last has `|xs| % 200` (empty when the count is a multiple of 200) |
| Batching.BatchesSplit | bmo.go:127-149 | the submissions are the full batches sent mid-stream followed by the one pending batch sent at the stop |
| Batching.Snoc | bmo.go:141-145 | one more document: the pending count is the count of documents mod 200; a full batch of 200 is sealed exactly when the document fills the last slot, and otherwise nothing is sealed and it joins the pending ones |
| Batching.FlattenBatches | bmo.go:127-149 | round trip: the submitted batches, concatenated in submission order, are exactly the decoded documents in decode order |
| Batching.BatchAt | bmo.go:128-131 | the document numbered p lands in batch p / 200 at slot p % 200, so no document is in two batches or two slots |
| Ingest.Leading | bmo.go:127-141 | the number of documents decoded before the first stop: every earlier outcome is a value, and the outcome at that position is not |
| Ingest.PrefixAt | bmo.go:130-131 | the k-th delivered document is the k-th value of the stream, and n steps deliver n documents |
| Ingest.DocumentsAre | bmo.go:127-149 | the delivered documents are the leading values of the stream, one each, in stream order |
| Ingest.StopsAfter | bmo.go:133-140 | values followed by an end of stream or an error: exactly those values are delivered, whatever comes after the stop |
| Ingest.StopOutcome | bmo.go:137-140 | an error after k values is fatal and names object start + k (it is not skipped); end of stream ends normally |
| Ingest.NothingAfterStop | bmo.go:134-140 | nothing after the first stop is decoded: appending to the stream changes neither the documents nor the outcome |
| Ingest.NextSlot | bmo.go:128-130 | the slot `seq % 200` is inside the buffer, and the next document takes the following slot, wrapping to 0 after slot 199 |
| Ingest.StopAt | bmo.go:133-140 | a stop at cursor k means k documents were decoded, and the outcome is normal at end of stream and fatal with object start + k on an error |
| Ingest.EmptyStream | bmo.go:134-135 | an empty stream still submits one batch, the empty one, and ends normally |
| Ingest.Pool.constructor | bmo.go:114-124 | a new pool has received nothing |
| Ingest.Pool.Process | bmo.go:135 | a submission appends a snapshot of the slice to what the pool received |
| Ingest.Store | bmo.go:130-145 | the decoded document is written to its slot; the whole buffer is submitted exactly when that slot is the last one; afterwards the pool holds the full batches and the buffer's prefix holds the pending documents |
| Ingest.Finish | bmo.go:133-140 | at a stop, the documents so far are all of them, and all batches are the full ones already sent plus the pending prefix |
| Ingest.Bmo.constructor | bmo.go:58-66 | NewBMO keeps the nodes, database and table, and starts the counter at 0 |
| Ingest.Bmo.EnsureTable | bmo.go:93-97 | creation is requested if and only if the target table is not among the listed names |
| Ingest.Bmo.Deliver | bmo.go:106-149 | the pool receives exactly the batches of the padding plus the delivered documents; the counter grows by the number of documents; the outcome is normal at end of stream and fatal, naming the counter, on an error |
| Ingest.Bmo.Compute | bmo.go:70-150 | the table check (a create recorded only for a missing table), then the decode loop with Deliver's guarantees |
| Ingest.Run | bmo.go:195-196 | from a fresh BMO: `Documents / 200 + 1` batches, exactly `Batches(Documents(input))`, whose concatenation is the documents; the outcome as for the stream |
| Nodes.JoinSnoc | bmo.go:154-156 | joining one more address adds `", "` and the address after the earlier text, or gives the address alone when it is the first |
| Nodes.JoinLength | bmo.go:154-156 | the joined text is as long as all the addresses plus one separator between each neighbouring pair |
| Nodes.NodeList.constructor | bmo.go:152 | a NodeList starts empty |
| Nodes.NodeList.String | bmo.go:154-156 | the addresses joined by `", "`: a single address prints as itself, and the text is as long as the addresses plus one separator between each neighbouring pair; `Join` is pinned down by `JoinSnoc` (one more address adds `", "` and the address, or the address alone when it is the first), so a fresh NodeList followed by `Set`s determines it |
| Nodes.NodeList.Set | bmo.go:158-161 | Set appends the address at the end, keeps the earlier ones, returns no error, and the printed value grows by a separator and the address |

## Left out

- The RethinkDB connection and session pool size (`bmo.go:77-85`), the `TableList` and `TableCreate` round trips and their failures (`bmo.go:88-103`), and `Insert` with soft durability (`bmo.go:111-124`). These are network calls. The model keeps only the decision to create, as a recorded table name (`created`), and the listed names as an input.
- The tunny pool's concurrency: the bound of `POOL_SIZE` workers, blocking in `Process`, and the draining in `Close` (`bmo.go:114-125`). `Process` is modelled as "record this batch".
- The shared `err` variable that worker closures write (`bmo.go:117`). It is a data race between goroutines, which a sequential model cannot express.
- Aliasing of `ms` between a submitted slice and the next batch being filled. The pool records a snapshot at submission time. Whether a worker could see later writes depends on the tunny library, which is not part of this model.
- JSON decoding itself. The decoder is an abstract sequence of outcomes, and a document is kept as its text. Decoding JSON `null` through `&m` resets the pointer `m` rather than the slot, so `ms[i]` keeps its earlier content. That behaviour belongs to `encoding/json`, which is not part of this model, so a `Value` always fills its slot here.
- `main`'s flag parsing, usage text, banner and exit codes (`bmo.go:163-193`). `NodeList` as a flag value is modelled; `flag.Var` is not.
- `runtime.GOMAXPROCS` and log output other than the fatal outcome.
- Ingest.Bmo.Deliver: the counter is an unbounded `nat`, so the wrap-around of the `uint64` `seq` after 2^64 documents is not modelled.
- Ingest.Bmo.Deliver: the fatal log line's text is reduced to the object number.
