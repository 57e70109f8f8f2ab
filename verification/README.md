# A verified model of the fast-firebird driver core

This project models the stateful and arithmetic core of fast-firebird, a TypeScript
driver for the Firebird wire protocol, in Dafny, and proves what that core promises:
that a pipelined connection hands every reader the answer to its own request, that
blobs read in any of four ways are the whole blob, that a script leaves durable exactly
what its checkpoints say, that rewritten SQL means what it meant, and that numbers,
keys and byte streams come out as they went in. Where a comment or a natural reading
of the code promises more than the code keeps, there is an input that shows it, and a
theorem that says for all inputs when the promise does hold.

`dafny verify dfyconfig.toml` checks everything.

## How it is built

| part | files |
|---|---|
| the connection | WireTypes, Framing, Server, Wire |
| blobs | Blob, BlobUpload, BlobLanes, BlobPipeline, BlobRoundTrip, BlobCursor, BlobPrefetch, InlineCache |
| statements | Statement, Batch, StatementCache |
| transactions and scripts | Transactions, Savepoints, ScriptMeaning, ScriptExecutor |
| connections | Pool |
| text | Text, Scanner, ScriptParser, NamedParams, ExpandStar |
| numbers | Digits, ScaledDecimal, Declets, DecFloat |
| keys and bytes | Srp, Arc4, Transport |

**The connection.** `Server` is a responder that answers requests first in, first out:
a state (stored blobs, blobs open for reading and for writing, cursors) and a relation
`Answers(state, request, state', packets)` that leaves every choice to the server:
refuse or grant, how a blob is split into segments, how many rows a fetch brings.
`Wire.WireConnection` has the source's fields (the write buffer, the flush count, the
counter of deferred responses) and ghost ones for what is on the wire: requests sent
and unanswered, packets inbound, a log of requests and a history of every exchange.
Keep-alives and inline blobs arrive anywhere. `lost` counts deferred errors that were
thrown to a reader they did not belong to; the accounting law, kept by every operation
on every exit, is that the answers owed are those counted as deferred plus those lost.

**Blobs.** `BlobPipeline` is the loop of `readBlobs` with its queues and its counters;
`BlobLanes` holds what is true of its books: the queue cut into lanes, one for each
blob, the ramping windows, and the script (open, segments, close) each lane follows.
`BlobCursor` is the lazy `Blob`, `BlobPrefetch` the read-ahead, one atomic step between
two awaits a method.

**Statements.** Execution with riders, fetch streams and batches are methods on the
wire. `StatementCache` follows the life of statement handles: every handle the server
gave is in the cache, or in somebody's hand, or was dropped, exactly once.

**Transactions and scripts.** `Transactions.Database` is the server as a transaction
sees it (durable effects, work in progress, any answer it likes) and `Transaction` the
driver's object. `ScriptMeaning` says what a script means: from what became of each
statement (a `Fact`) it derives the executor's variables, what was asked, and the fate
of each effect. `ScriptExecutor` is the executor's perScript mode, proved against it.
`Savepoints` gives nested `transaction` calls an evaluator of programs and an
independent meaning of them.

**Text.** `Scanner` classifies each character of a text (code, comment, quoted, or in
a region that never ends); the splitter, the comment stripper and the parameter
rewriter are proved against that one classification. `ExpandStar` has its own
tokenizer, as the source does.

**Numbers, keys, bytes.** Decimals are digit strings, bytes are numbers below 256;
hashes enter the key agreement as arbitrary numbers.

## Where the code and its promises part

* A comment (protocol/wire.ts:94) says that errors of deferred operations are dropped;
  `parseResponseBody` (wire.ts:126) throws them, to whoever reads next, whose own answer
  stays on the wire. `Wire.DeliveredExactly` says when a reader is safe.
* The same in two callers: a fetch behind a failed execute (protocol/statement.ts:145-151)
  is always answered by an error, so the next reader never gets its own answer
  (`StatementProtocol.AfterFailedExecute`); a batch cycle that fails before its exec
  (api/batch.ts:213-231) counts the exec's reply as deferred, but that reply is no plain
  response or an error (`Batch.AfterFailedCycle`).
* A refused allocate (protocol/statement.ts:48-50) leaves the answer to the prepare on
  the wire and uncounted; a refused prepare leaves a handle with nobody to free it
  (`StatementProtocol.Prepare`).
* The error path of `readBlobs` (protocol/blob.ts:328-334) cannot close handles whose
  opening was still pending; `BlobLanes.ClosedOnce` says which are closed and how.
* After a failed window the cursor of a lazy blob (api/blob.ts:140-154, 212-231) stays
  open, and what that window had brought is gone (`BlobCursor.LostByte`). Reading on gives
  the whole blob exactly when no answer of the window carried data
  (`BlobCursor.Blob.ReadableExactly`).
* `BlobPrefetcher.close` (api/blob-prefetch.ts:97-106) drops entries that were asked for
  but not begun; their promise never settles (`BlobPrefetch.StrandedPromise`). A fetch
  that finds itself abandoned waits for the lock and then drops its entry without asking
  again (blob-prefetch.ts:157-166), so a promise made during that wait never settles
  either (`BlobPrefetch.StrandedByAbort`). Each step says which promises it strands, and
  there are no others.
* The inline cache (api/inline-cache.ts:25-35) refuses a replacement that would fit in
  the place of what it replaces (`InlineCache.InlineBlobCache.Store`).
* A stream's statement can be evicted while rows are read (api/session.ts:697-711) and is
  then put back although it was dropped (`StatementCache.EvictedMidStream`), even when the
  server has given its handle out again for the same text
  (`StatementCache.ReissuedMidStream`); `StatementCache.Session.EndStream` has the exact
  condition.
* `Pool.release` (pool/pool.ts:173-176) drops a dead connection without telling who waits
  for one (`ConnectionPool.ReleaseServesExactly`).
* A nested scope whose SAVEPOINT was refused (api/transaction.ts:184-198) rolls back to a
  savepoint of the same name if an earlier scope left one, and undoes work outside the
  scope (`Savepoints.StaleSavepoint`, exactly when: `Savepoints.RefusedSavepointExactly`).
  A restart inside a scope (transaction.ts:200, 273) leaves a negative depth
  (`Savepoints.DepthKeptExactly`). A later rollback may make such a step good again
  (`Savepoints.MadeGood`).
* `SET TERM` is recognised in twelve characters of raw text (script/parser.ts:132, 359):
  a comment between its words hides it, and blanking the comment brings it out
  (`ScriptParser.BlankingMakesSetTerm`, exactly when it matters:
  `ScriptParser.StripKeepsPositions`).
* `rewriteNamedParams` reads a marker whose name ends in q, directly before a quote, as
  a marker and a string, where the scanner sees a q-literal (api/named-params.ts:83-105);
  `NamedParams.SameRegions` makes it an if and only if.
* The greedy run of `expandStarSql` (api/expand-star.ts:238-243) takes outputs of an
  expression after a star, and the final count agrees (`ExpandStar.GreedyRunMisplaced`,
  exactly when: `ExpandStar.MapRecovers`).
* `encodeDecFloat` (types/decfloat.ts:149-152) admits exponents in the top quarter of the
  field, which the decoder reads as large digits or special values, cuts the exponent to
  32 bits after looking at its sign, and takes an exponent that is no number for the
  smallest one (`DecFloat.TopQuarterCollides`, `DecFloat.ExponentWrapsAround`,
  `DecFloat.MissingExponent`; exactly when it is right: `DecFloat.EncodeDecode`).
* The client's exponent in SRP is reduced (protocol/auth/srp.ts:107-131), which changes
  the secret when `a + u * x` reaches N (`Srp.SecretsDiffer`, exactly when:
  `Srp.SecretsAgreeExactly` and, for the client alone, `Srp.SecretsAlwaysAgree`).

## Model

| member | source | states |
|---|---|---|
| Wire.DeliveredExactly | packages/core/src/protocol/wire.ts:88-128 | a reader is handed its own answer, with the answers to deferred requests and any noise ahead of it, if and only if each of those is a plain response without an error |
| Wire.DeliverStrip | packages/core/src/protocol/wire.ts:91-107 | keep-alives and inline blobs, wherever they arrive, change nothing of what a reader is handed |
| Wire.WireConnection.Flush | packages/core/src/protocol/wire.ts:56-60 | what was written goes out behind what is on the wire, in order, as one packet, and an empty buffer counts as none |
| Wire.WireConnection.ReadOp | packages/core/src/protocol/wire.ts:88-110 | the packet handed over begins the answer to the first request that is not deferred, the requests ahead having been served in order; or a deferred error is thrown, `lost` grows by one, and nothing behind that error is touched |
| Wire.WireConnection.ReadResponse | packages/core/src/protocol/wire.ts:113-128 | the response is the one the server gives to the oldest request not deferred, in the state the earlier requests led to, or a deferred error came first and is counted as lost |
| Wire.WireConnection.Discard | packages/core/src/protocol/blob.ts:328-331 | awaiting and discarding takes exactly one answer that is not deferred, or one deferred error, so the answers owed and the counter go down together |
| Framing.UnframeFrameAll | packages/core/src/protocol/blob.ts:84-94 | unpacking the framing of any list of segments, empty ones included, gives their concatenation |
| Framing.ParseSegmentFrames | packages/core/src/protocol/blob.ts:84-94 | the loop returns the bytes that the frames of any buffer carry, a cut-off last frame included |
| BlobPipeline.ReadBlobs | packages/core/src/protocol/blob.ts:210-338 | for every list of ids, duplicates included, every chunk size and every way the server segments and refuses: a result is the whole content of each blob in order, as it was stored before the call; each blob was opened, read and closed once, by a log of exactly those requests; every exit leaves the answers owed counted; after an error exactly the handles that were granted and not at their end are closed at the end |
| BlobPipeline.Pipeline.Run | packages/core/src/protocol/blob.ts:282-318 | the loop ends, and without an error nothing is pending or unflushed and every blob is at its end |
| BlobPipeline.Pipeline.Pump | packages/core/src/protocol/blob.ts:260-280 | the books stay right, what each blob waits for is unchanged, and when nothing is outstanding after it every blob has been read |
| BlobPipeline.Pipeline.Recover | packages/core/src/protocol/blob.ts:319-336 | after an error all requests written are flushed and their answers taken, and the closes of the handles known to be open are written, so the wire is in sync |
| BlobLanes.WindowBounded | packages/core/src/protocol/blob.ts:257-279 | in every state of the loop the counter is the number of segment requests outstanding and at most 32, and at most 10 opens are out |
| BlobLanes.ClosedOnce | packages/core/src/protocol/blob.ts:304-310 | which handles a failed read gives back: one at its end by its own close, one granted and not at its end by the closes of the error path, one not granted by none |
| BlobProtocol.ReadBlob | packages/core/src/protocol/blob.ts:110-151 | a value returned is the whole stored blob, read by at most 32 requests in flight over a server that segments as it likes; on every exit the answers owed are counted |
| BlobProtocol.ReadBlobWindow | packages/core/src/protocol/blob.ts:159-188 | a window continues the blob exactly where it stood, ends it only when nothing is left and otherwise makes progress; however it ends, the server has moved on by exactly the bytes that the answers carried, those drained after an error included |
| BlobProtocol.Open | packages/core/src/protocol/blob.ts:13-17 | a handle granted is positioned at the start of that blob and is in nobody else's hand; a refusal means the server refused or there is no such blob |
| BlobProtocol.CloseDeferred | packages/core/src/protocol/blob.ts:45-48 | one close is written and one answer counted as deferred |
| BlobUpload.WriteBlobStream | packages/core/src/protocol/blob.ts:350-427 | for every chunking of the source: the stored blob is the source and the other blobs are as before; it is sent in full segments but for the last, at most 32 in flight, by exactly create, segments and close; a source that fails or a server that refuses leaves the answers owed counted |
| BlobUpload.WriteBlob | packages/core/src/protocol/blob.ts:435-487 | the stored blob is the data, an empty one being one empty segment, and the other blobs are as before, under the same window and the same accounting |
| BlobRoundTrip.WriteThenRead | packages/core/src/protocol/blob.ts:110-487 | writing a source and reading the blob gives the bytes of the source, for every chunking, both segment sizes and every way the server splits |
| BlobCursor.Blob.Head | packages/core/src/api/blob.ts:126-158 | the prefix of length min(n, size), whatever was read before, from the cache, the inline blob, the read-ahead or the server; the cursor stays where later reads resume; after a failed window the blob can be read on if and only if its answers carried no data |
| BlobCursor.Blob.Buffer | packages/core/src/api/blob.ts:197-231 | the whole blob from a cursor in any position, or from whoever holds it, cached from then on; the same after a failed window |
| BlobCursor.Blob.Advance | packages/core/src/api/blob.ts:144-152 | a window read behind the cursor is filed, keeps what is taken and what is left the whole blob, and makes progress until the end |
| BlobCursor.Blob.PromoteIfComplete | packages/core/src/api/blob.ts:170-175 | a cursor at its end becomes the cache, which is then the whole blob |
| BlobCursor.Blob.ReadableExactly | packages/core/src/api/blob.ts:140-154 | after a failed window the cursor still gives the whole blob if and only if no answer of that window, wanted or drained, carried data |
| BlobCursor.LostByte | packages/core/src/api/blob.ts:140-154 | a cursor that cannot be read on: the first answer of a window carries a byte, the second is a refusal |
| BlobCursor.LegalAnswers | packages/core/src/protocol/blob.ts:159-188 | the server may answer that window so |
| BlobCursor.Blob.Close | packages/core/src/api/blob.ts:182-194 | a cursor given up, also after a failed window, leaves a blob that reads from its first byte, and sends one close if its transaction lives |
| BlobPrefetch.BlobPrefetcher.AddRow | packages/core/src/api/blob-prefetch.ts:43-52 | every id is tracked once, for the first row it came with, and nothing is fetched yet |
| BlobPrefetch.BlobPrefetcher.Advance | packages/core/src/api/blob-prefetch.ts:54-58 | the window moves, one fetch at most is started, and an idle prefetcher has no entry that may start |
| BlobPrefetch.BlobPrefetcher.Kick | packages/core/src/api/blob-prefetch.ts:123-134 | the first entry that may start is started unless a fetch is under way, so an idle prefetcher has none left |
| BlobPrefetch.BlobPrefetcher.Slice | packages/core/src/api/blob-prefetch.ts:156-206 | what the fetch under way does between two waits: it fails, is done, files bytes, finds itself abandoned, or after that drops its entry; it strands a promise if and only if it drops an entry that was asked for meanwhile |
| BlobPrefetch.BlobPrefetcher.Take | packages/core/src/api/blob-prefetch.ts:70-91 | the bytes handed over are exactly the blob's, once, and leave the budget; otherwise a promise of exactly those bytes, and an idle prefetcher has nothing left to start |
| BlobPrefetch.BlobPrefetcher.Release | packages/core/src/api/blob-prefetch.ts:108-113 | bytes handed over leave the budget, and what waited for room may start |
| BlobPrefetch.BlobPrefetcher.Complete | packages/core/src/api/blob-prefetch.ts:186-191 | a finished fetch resolves the promise of who asked with the blob's bytes, or keeps them within the accounting |
| BlobPrefetch.BlobPrefetcher.Settle | packages/core/src/api/blob-prefetch.ts:128-133 | after a fetch the next entry that may start is started |
| BlobPrefetch.BlobPrefetcher.BudgetHolds | packages/core/src/api/blob-prefetch.ts:115-121 | in every state the bytes fetched ahead and not asked for are below the budget plus one blob |
| BlobPrefetch.BlobPrefetcher.Close | packages/core/src/api/blob-prefetch.ts:97-106 | which entries are dropped, and that closing strands exactly the promises of entries asked for and not begun |
| BlobPrefetch.StrandedPromise | packages/core/src/api/blob-prefetch.ts:97-106 | for any budget, depth and two blobs: a sequence of calls that strands a promise |
| BlobPrefetch.StrandedByAbort | packages/core/src/api/blob-prefetch.ts:156-166 | for any budget, depth and non-empty blob: a take while an abandoned fetch waits for the lock gets a promise that is stranded |
| InlineCache.InlineBlobCache.Store | packages/core/src/api/inline-cache.ts:25-35 | stored if and only if it fits beside everything there, and the size counter stays the sum of what is stored and within the capacity |
| InlineCache.InlineBlobCache.Take | packages/core/src/api/inline-cache.ts:37-45 | the bytes of that blob in that transaction, once |
| InlineCache.InlineBlobCache.ClearTx | packages/core/src/api/inline-cache.ts:47-52 | the blobs of a finished transaction go, and only those |
| StatementProtocol.ExecuteStatement | packages/core/src/protocol/statement.ts:92-153 | one flush; the row or the error is the one the server gave to this execute; the riders are still to be read after success and counted as deferred after an error, so the answers owed are counted on every exit |
| StatementProtocol.AwaitExecute2 | packages/core/src/protocol/statement.ts:131-141 | the row and the error are those of the answer to this op_execute2, read to its end |
| StatementProtocol.ReadFetchBatch | packages/core/src/protocol/statement.ts:167-185 | rows and end, or the error, are those of the stream that answers this fetch, read to its last packet and no further |
| StatementProtocol.Prepare | packages/core/src/protocol/statement.ts:26-58 | the handle is the one the server allocated here; a refused prepare leaves it with the caller to free, a refused allocate leaves one answer on the wire that nothing counts |
| StatementProtocol.AfterFailedExecute | packages/core/src/protocol/statement.ts:145-151 | for every statement, row count and next request: when an execute with a fetch behind it fails, the next read throws the fetch's error and leaves its own answer on the wire |
| Batch.RunBatch | packages/core/src/api/batch.ts:177-289 | the rows go out in cycles of at least one row and up to the chunk size, in order; create is sent once, and release exactly when create was; the result combines the completions the server sent, and an error is the one it sent or the first failed row; every exit leaves the answers owed counted |
| Batch.ExecCycle | packages/core/src/api/batch.ts:203-231 | one flush of create when due, one registration per blob, rows and exec; the completion is the server's reply to this exec, or the error is the server's |
| Batch.AwaitCompletion | packages/core/src/protocol/batch.ts:405-429 | the completion or the error is the one that the server sent in reply to this exec |
| Batch.ChunkingInvisible | packages/core/src/api/batch.ts:233-239 | for every engine that takes rows in order and every way of cutting rows into cycles, counts, totals and global error positions are those of one execute |
| Batch.SameInAnyChunks | packages/core/src/api/batch.ts:177-289 | two batches of the same rows with different chunk sizes, on servers with that engine, give one and the same result |
| Batch.RegisteredOnce | packages/core/src/api/batch.ts:264-273 | each blob id in the rows of a cycle is registered exactly once, and no other |
| Batch.AfterFailedCycle | packages/core/src/api/batch.ts:225-230 | when a cycle fails before its exec, the next reader is never handed its own answer, whatever the server's legal reply to the exec |
| StatementCache.Session.Get | packages/core/src/api/statement-cache.ts:37-45 | a hit gives the entry of that statement and makes it the youngest; a miss changes nothing |
| StatementCache.Session.Put | packages/core/src/api/statement-cache.ts:47-64 | the statement becomes the youngest, another object it replaces is dropped, be it of the same handle, and the oldest entries beyond the capacity go, never the new one |
| StatementCache.Session.Remove | packages/core/src/api/statement-cache.ts:66-72 | the entry is gone and its handle dropped once, and nothing else |
| StatementCache.Session.Clear | packages/core/src/api/statement-cache.ts:75-80 | every cached handle is dropped once |
| StatementCache.Session.FinishStatement | packages/core/src/api/session.ts:577-589 | after success the cache and the handles dropped are stated in full, and every handle is accounted for exactly once if and only if a statement taken from the cache is still in it, the very object |
| StatementCache.Session.RunStatement | packages/core/src/api/session.ts:543-574 | from any cache and whatever the server answers: at most a cached handle and then, if that was stale, a fresh one is executed, and every handle is cached or was dropped, exactly once |
| StatementCache.Session.ExecuteBatchStatement | packages/core/src/api/batch.ts:128-143 | the same ownership after a batch, failed or not |
| StatementCache.Session.BeginStream | packages/core/src/api/session.ts:606-643 | a stream holds the cached statement or a fresh one, and without either every handle is still accounted for |
| StatementCache.Session.EndStream | packages/core/src/api/session.ts:699-711 | at the end of a stream, with any other work in between, cache and handles dropped are stated in full, and every handle is accounted for exactly once if and only if the statement was not cached before, or the stream failed, or the cache still holds that very object |
| StatementCache.EvictedMidStream | packages/core/src/api/session.ts:699-711 | one other statement at capacity one, and the stream puts back a handle that was dropped |
| StatementCache.ReissuedMidStream | packages/core/src/api/session.ts:699-711 | after an eviction the same text is prepared anew on the same handle, and the stream's end drops that handle a second time |
| ScriptExecutor.ScriptRun.ExecuteScript | packages/core/src/script/execute.ts:190-267 | for every script, option and behaviour of the server: what was asked is, ask for ask, what the facts of each statement say; what is durable is what they say, plus what was pending when the call returns; one result for each statement visited, `succeeded + failed` of them; which failure ends the script and what is thrown; nothing stays open but a transaction whose rollback was refused |
| ScriptMeaning.DurableExactly | packages/core/src/script/execute.ts:201-263 | an effect is durable if and only if a commit, reconnect or AutoDDL checkpoint that succeeded is the first to meet it, pending if and only if none has met it, and lost otherwise |
| ScriptMeaning.ClientCommandsStayHere | packages/core/src/script/execute.ts:148-156 | no client command is sent to the server, whatever the script and the server do |
| ScriptMeaning.CleanHoldsNothing | packages/core/src/script/execute.ts:193-199 | a transaction that is not dirty holds no work |
| ScriptMeaning.VariablesAre | packages/core/src/script/execute.ts:224-246 | the transaction options, the AutoDDL switch and the read-only state of the running transaction are what the commands so far have set |
| ScriptExecutor.ScriptRun.Checkpoint | packages/core/src/script/execute.ts:207-223 | a checkpoint is done, or refused with nothing changed, or finished without a new transaction, and says which |
| ScriptExecutor.ScriptRun.CheckpointRetaining | packages/core/src/script/execute.ts:207-223 | a retaining checkpoint keeps the transaction, and a refusal changes nothing |
| ScriptExecutor.ScriptRun.SetTransaction | packages/core/src/script/execute.ts:224-236 | rejected if and only if the transaction has executed statements; otherwise the options stay set even when the commit is refused |
| ScriptExecutor.ScriptRun.ReconnectCommand | packages/core/src/script/execute.ts:237-243 | work done is committed before the connection is given up, and a refusal of either is told apart |
| ScriptExecutor.ScriptRun.RunOne | packages/core/src/script/execute.ts:137-146 | one statement does what the facts say and asks what they say, the upgrade included |
| ScriptExecutor.ScriptRun.EmitError | packages/core/src/script/execute.ts:124-134 | one failed result is recorded, and rethrown if and only if the script does not go on after errors |
| ScriptExecutor.ScriptRun.CheckpointDdl | packages/core/src/script/execute.ts:256-261 | the AutoDDL checkpoint behind a DDL statement that is on record as done; its refusal ends the script |
| ScriptExecutor.ScriptRun.Close | packages/core/src/script/execute.ts:263-267 | a final commit, and a rollback when it is refused or the script failed; the first error is the one thrown |
| Transactions.Transaction.Conclude | packages/core/src/api/transaction.ts:204-231 | a commit or rollback that succeeds gives the work that fate and kills the blob handles; one that is refused changes nothing and leaves the transaction usable |
| Transactions.Transaction.Retain | packages/core/src/api/transaction.ts:234-242 | the same for the retaining forms, the transaction staying open |
| Transactions.Transaction.Restart | packages/core/src/api/transaction.ts:257-275 | three ends and no other: all done with older blob handles dead, refused with nothing changed, or finished without a new transaction |
| Transactions.Transaction.Run | packages/core/src/api/transaction.ts:101-123 | a statement is tried once, and once more after the upgrade of a read-only transaction and only then; nothing becomes durable, a failure leaves the work as it was, and the other transactions theirs |
| Savepoints.ScopesAsMeant | packages/core/src/api/transaction.ts:182-202 | for every program of nested scopes and every regular behaviour of the server: effects and errors are those meant, and the depth and the enclosing savepoints are kept |
| Savepoints.RefusedSavepointExactly | packages/core/src/api/transaction.ts:184-198 | a scope whose SAVEPOINT is refused does what it should if and only if its rollback finds no older savepoint of that name, or one behind which nothing was done, or is refused |
| Savepoints.RefusedRollbackExactly | packages/core/src/api/transaction.ts:190-198 | a scope with a regular body does what it should if and only if it needs no rollback, or is granted it, or its body left no effects |
| Savepoints.DepthKeptExactly | packages/core/src/api/transaction.ts:199-201 | a scope leaves the depth as it found it if and only if nothing in it restarted the transaction; otherwise the depth is negative |
| Savepoints.StaleSavepoint | packages/core/src/api/transaction.ts:184-198 | a program that loses work done outside the failed scope |
| Savepoints.MadeGood | packages/core/src/api/transaction.ts:190-198 | a step that does not do what it should, in a program that does |
| ConnectionPool.Pool.Acquire | packages/core/src/pool/pool.ts:119-168 | a connection that was idle and answers, or a slot for a new one, or the end of the line; the invariant holds: size within the maximum, nothing idle and in use, lent or in the line twice, and waiters only while the pool is full up to the connections dropped since |
| ConnectionPool.Pool.PingDone | packages/core/src/pool/pool.ts:135-144 | the reserved connection is lent, or given up and another looked for |
| ConnectionPool.Pool.CreateDone | packages/core/src/pool/pool.ts:147-156 | a slot becomes a lent connection or is free again |
| ConnectionPool.Pool.Release | packages/core/src/pool/pool.ts:171-185 | the connection goes to whoever waits longest, and only that one, or becomes idle; a dead one is dropped and nobody told; a second release does nothing |
| ConnectionPool.Pool.Timeout | packages/core/src/pool/pool.ts:160-164 | a waiter that gives up leaves the line and is settled once |
| ConnectionPool.Pool.WarmupStart | packages/core/src/pool/pool.ts:75-83 | the slots that are missing to the minimum are reserved |
| ConnectionPool.Pool.WarmupDone | packages/core/src/pool/pool.ts:81-89 | a warmed connection is idle even if somebody waits, which is the one way to have both |
| ConnectionPool.Pool.SweepIdle | packages/core/src/pool/pool.ts:101-116 | of the idle connections only expired ones go, and never below the minimum |
| ConnectionPool.Pool.Close | packages/core/src/pool/pool.ts:273-287 | everybody in the line is told, once, and nothing is idle or in use any more |
| ConnectionPool.ReleaseServesExactly | packages/core/src/pool/pool.ts:171-185 | while somebody waits the line moves if and only if the connection that comes back is alive |
| ConnectionPool.MapRun.Take | packages/core/src/pool/pool.ts:230-235 | a worker without an index takes the next one, or ends |
| ConnectionPool.MapRun.Turn | packages/core/src/pool/pool.ts:230-236 | one step of one worker keeps the run in order and brings it nearer to its end |
| ConnectionPool.MapAll | packages/core/src/pool/pool.ts:222-239 | for every order in which the workers take turns and every failure of the callback: without one every index is called exactly once and the results are in input order, with one there is no result, and no index is called twice |
| ConnectionPool.MapRun.Bounded | packages/core/src/pool/pool.ts:227-237 | in every state at most the limit of calls is under way |
| Scanner.RegionAt | packages/core/src/script/scanner.ts:32-71 | the loops find the region that starts at a position, its end and whether it is terminated, as the grammar of regions says |
| Scanner.BlankTwice | packages/core/src/script/parser.ts:114-130 | blanking comments is idempotent, keeps every newline and every character outside comments, and leaves no comment behind |
| Scanner.MarksOfBlank | packages/core/src/script/parser.ts:114-130 | after blanking every character has the class it had, but that comments are code |
| ScriptParser.CommentRanges | packages/core/src/script/parser.ts:95-112 | the ranges are in order and apart, and a character is in one if and only if it is in a comment; or the error is at the one region that does not end |
| ScriptParser.StripComments | packages/core/src/script/parser.ts:120-130 | the result is the text with its comments blanked, or the error is at the region that does not end |
| ScriptParser.LineColMeaning | packages/core/src/script/parser.ts:72-84 | a line is one more than the newlines before, a column one more than the characters since the last |
| ScriptParser.LineColAt | packages/core/src/script/parser.ts:72-84 | the loop gives the line and column of the definition |
| ScriptParser.ParseScript | packages/core/src/script/parser.ts:322-439 | the statements are the pieces that the splitting grammar cuts, trimmed, with the line and column of their first character, or the error is where the grammar breaks |
| ScriptParser.SplitExactly | packages/core/src/script/parser.ts:322-400 | a well-lexed script without SET TERM is cut exactly at the terminators outside every region: statements in order and apart, none holding one, and every other character white space, comment or terminator |
| ScriptParser.StripKeepsPositions | packages/core/src/script/parser.ts:114-130 | a script and its comment-stripped form split at the same positions, with the same lines and columns, if and only if no statement reads as SET TERM once its comments are blanks |
| ScriptParser.BlankingMakesSetTerm | packages/core/src/script/parser.ts:132 | a script of one statement whose stripped form is an error |
| NamedParams.RewriteNamedParams | packages/core/src/api/named-params.ts:56-106 | the loop gives the text with a question mark for each marker, and the names in the order of the markers |
| NamedParams.PiecesSpell | packages/core/src/api/named-params.ts:56-106 | nothing but the markers is replaced: the pieces with their markers written out are the text |
| NamedParams.RewriteInvertible | packages/core/src/api/named-params.ts:56-106 | putting the names back for the question marks in order gives the text if and only if no plain parameter stands before a marker |
| NamedParams.RewriteTwice | packages/core/src/api/named-params.ts:56-106 | a second rewrite changes nothing and finds no name |
| NamedParams.SameRegions | packages/core/src/api/named-params.ts:68-105 | the rewriter skips exactly the regions of the scanner if and only if no marker name ends in q directly before a quote |
| NamedParams.BindNamedParams | packages/core/src/api/named-params.ts:114-132 | each slot gets the value of its name; a name missing is an error that lists the missing names, each once |
| ExpandStar.ExpansionMeans | packages/core/src/api/expand-star.ts:147-291 | of a statement that is not turned away for its shape and the true partition of its outputs: it is mapped by that partition if and only if that is recognised; then it is rewritten if and only if every star keeps a column, and what is written for the stars are the names of a list that makes the original columns less those filtered out |
| ExpandStar.MapRecovers | packages/core/src/api/expand-star.ts:217-249 | the mapping recovers every run of any true partition of the outputs if and only if each qualified star in it is recognised |
| ExpandStar.MapPartitions | packages/core/src/api/expand-star.ts:217-249 | with an output for each item, whatever is mapped is a partition of the outputs whose stars carry their alias |
| ExpandStar.GreedyRunMisplaced | packages/core/src/api/expand-star.ts:238-249 | a true partition that the mapping replaces by another one, with the final count right |
| ExpandStar.BareMapsExactly | packages/core/src/api/expand-star.ts:225-232 | a bare star beside expressions is mapped if and only if there is an output for each item |
| ExpandStar.ExpressionsMapExactly | packages/core/src/api/expand-star.ts:221-224 | expressions alone are mapped if and only if they are as many as the outputs |
| ExpandStar.MapFaults | packages/core/src/api/expand-star.ts:233-249 | the two ways in which qualified stars fail, and that an output of another alias is one |
| ExpandStar.RewrittenByPartition | packages/core/src/api/expand-star.ts:147-291 | whatever is rewritten is rewritten by a partition of the outputs, if there is one for each item |
| ExpandStar.NewListMeans | packages/core/src/api/expand-star.ts:251-279 | entry by entry the new list makes the original columns, in order, less what the filter drops from the stars |
| ExpandStar.SpliceKeeps | packages/core/src/api/expand-star.ts:281-290 | every character outside the stars is still there, moved as far as the stars before it grew |
| ExpandStar.UnquoteQuoted | packages/core/src/api/expand-star.ts:132-138 | a quoted name reads back as itself, whatever characters it has |
| ExpandStar.Tokenize | packages/core/src/api/expand-star.ts:30-118 | the loop gives the tokens of the grammar with their spans and depths |
| ExpandStar.ExpandStarSql | packages/core/src/api/expand-star.ts:147-291 | the loops give what the specification of the rewrite says, each rejection included |
| DecFloat.EncodeDecode | packages/core/src/types/decfloat.ts:56-173 | for every literal: decoding the encoding gives sign, coefficient and exponent, as rounded to fit, if and only if the biased exponent is below three quarters of its field |
| DecFloat.FitIsNearest | packages/core/src/types/decfloat.ts:135-146 | a coefficient too long is rounded to the nearest of everything the format can denote at any exponent, places below the literal's last digit included, off by at most half a unit, ties away from zero, the carry out of all nines included |
| DecFloat.ShowParse | packages/core/src/types/decfloat.ts:95-117 | printing and parsing a decoded number gives its sign and its digits back, zeros of a positive exponent written out |
| DecFloat.RereadSameValue | packages/core/src/types/decfloat.ts:183-191 | what printing and parsing gives has the same value and sign |
| DecFloat.TextRoundTrip | packages/core/src/types/decfloat.ts:56-191 | a text whose coefficient fits and whose exponent is in range comes back, through bytes and text, with the same sign and value |
| DecFloat.SpecialRoundTrip | packages/core/src/types/decfloat.ts:127-129 | the names of infinities and NaN decode to what they say, and back |
| DecFloat.RefusedExactly | packages/core/src/types/decfloat.ts:148-152 | a literal is refused if and only if its biased exponent is negative or, cut to 32 bits, past the field |
| DecFloat.TopQuarterCollides | packages/core/src/types/decfloat.ts:148-154 | an exponent in the top quarter is encoded and decodes to something else |
| DecFloat.ExponentWrapsAround | packages/core/src/types/decfloat.ts:149-152 | literals whose exponents are 2 to the 32 apart are encoded to the same bytes or both refused, whenever the smaller biased exponent is not negative |
| DecFloat.MissingExponent | packages/core/src/types/decfloat.ts:105-107 | a text whose exponent is no number decodes with the smallest exponent of the format, whatever its point said |
| DecFloat.EncodeDecFloat | packages/core/src/types/decfloat.ts:124-173 | the steps over digits, table and buffer give the bytes of the format's definition |
| DecFloat.DecodeDecFloat | packages/core/src/types/decfloat.ts:56-92 | the shifts, masks and the table give the text of the format's definition |
| Declets.PackIsStandard | packages/core/src/types/decfloat.ts:25-43 | the encoder of three digits is inverse to the table of section 3.5.2 of IEEE 754-2008 and never gives a redundant pattern |
| Declets.UnpackIsStandard | packages/core/src/types/decfloat.ts:25-43 | a pattern is what the encoder makes of its digits if and only if it is not redundant |
| Declets.DpdOfEncoded | packages/core/src/types/decfloat.ts:12-43 | looking a declet up gives the number that its three digits spell, for all thousand triples |
| Declets.EncodedOfDpd | packages/core/src/types/decfloat.ts:12-43 | each number has one declet that is not redundant, the one the encoder gives |
| Declets.BuildDpdTable | packages/core/src/types/decfloat.ts:12-22 | the table inverts the encoder on all its patterns and holds zero elsewhere |
| ScaledDecimal.TextIsNearest | packages/core/src/protocol/batch.ts:65-84 | for every text: the result has the sign of the text and is exact, or the nearest integer, ties away from zero |
| ScaledDecimal.ScaledIsNearest | packages/core/src/protocol/batch.ts:70-83 | the digit that is looked at, or the padding zero, rounds as the whole value does |
| ScaledDecimal.ParseRender | packages/core/src/protocol/batch.ts:66-69 | the grammar reads every literal back, part by part |
| Srp.ModPow | packages/core/src/protocol/auth/srp.ts:40-50 | square-and-multiply gives the power modulo n, for a base of either sign |
| Srp.SecretsAgree | packages/core/src/protocol/auth/srp.ts:107-131 | client and server have the same secret whenever `a + u * x` is below N |
| Srp.SecretsAgreeExactly | packages/core/src/protocol/auth/srp.ts:107-131 | in general they have it if and only if g to the dropped part of the exponent, times the server's secret, is one modulo n |
| Srp.SecretsAlwaysAgree | packages/core/src/protocol/auth/srp.ts:107-131 | in the group of the protocol the client shares a secret with every server, whatever its secret, if and only if 2 to the dropped part is one modulo N |
| Srp.SecretsDiffer | packages/core/src/protocol/auth/srp.ts:107-131 | two secrets that differ, in a small group |
| Srp.HashesAreShort | packages/core/src/protocol/auth/srp.ts:107-131 | with 160-bit hashes only a client secret in the top 2 to the 320 of the range can meet the reduction |
| Srp.ComputeSecret | packages/core/src/protocol/auth/srp.ts:107-131 | the reductions on the way and the fix of a negative base give the secret of the definition; a server key that is zero modulo N is refused |
| Srp.GenerateEphemeral | packages/core/src/protocol/auth/srp.ts:89-98 | the first draw with a usable public key is taken, and a caller's own seed is drawn once |
| Arc4.CipherConcat | packages/core/src/protocol/crypt/arc4.ts:25-40 | enciphering in pieces or at once is the same |
| Arc4.CipherTwice | packages/core/src/protocol/crypt/arc4.ts:25-40 | two ciphers in one state undo each other |
| Arc4.ScheduleKeepsPermutation | packages/core/src/protocol/crypt/arc4.ts:13-23 | the key schedule keeps the state a permutation, whatever the key |
| Arc4.Rc4.Process | packages/core/src/protocol/crypt/arc4.ts:25-40 | the loop enciphers by the stream of its state and leaves the state that many bytes on |
| Arc4.ScheduleKey | packages/core/src/protocol/crypt/arc4.ts:13-23 | the swaps in place make the schedule of the definition |
| Arc4.PacketsAreOneStream | packages/core/src/protocol/crypt/arc4.ts:25-40 | packet boundaries leave no trace in the cipher text |
| Transport.ReceivesWhatWasSent | packages/core/src/protocol/transport.ts:160-191 | whatever packets one side sent and however the network cut them, the other side's cipher makes of the chunks what was sent |
| Transport.Converse | packages/core/src/protocol/transport.ts:160-191 | packets through the sender's cipher, cut by the network in any way, and read in pieces of any sizes, come out as exactly what was sent, for as long as there is enough of it |
| Transport.SendAll | packages/core/src/protocol/crypt/arc4.ts:52-54 | packet by packet the sender makes the cipher text of all of them at once |
| Transport.Receiver.Read | packages/core/src/protocol/transport.ts:182-191 | exactly the next n bytes of the decrypted stream, in any chunking, or none when the connection ends first |
| Transport.Receiver.Arrive | packages/core/src/protocol/transport.ts:160-172 | a chunk that arrives loses and changes nothing of what can be read |
| Transport.ByteQueue.Take | packages/core/src/protocol/transport.ts:34-62 | exactly the first n bytes of the queue, in order, and the rest stays |
| Transport.ByteQueue.Push | packages/core/src/protocol/transport.ts:27-31 | a chunk goes to the end of the queue, an empty one is nothing |
| Transport.Receiver.InstallCrypt | packages/core/src/protocol/transport.ts:146-158 | bytes that arrive from then on are decrypted from the start of the key stream, those queued are not |

## Left out

- Sockets, timers, compression, the handshake, key exchange messages and other ciphers: input and output, or foreign code; the network is a list of chunks, the server a first-in-first-out responder.
- Transport failure in the middle of a packet, packets that no legal server sends, and callbacks that throw (`onProgress`).
- The services API, events, introspection, the Drizzle adapter and field codecs: thin or finite.
- What SQL does inside the server: a statement is an effect that may be refused.
- Script modes perStatement, none and caller-supplied transaction (script/execute.ts:170-189, 268-324): loops over one statement at a time; perScript has their operations and more.
- `classifyClientCommand`, `parseSetTransaction` and statement kinds (script/parser.ts:134-319): a parsed statement comes with its kind.
- `Blob.prefetch`, `stream`, `size` and the text and file forms of a lazy blob (api/blob.ts:83-116, 237-384): built on the reads modelled here.
- `RowMapper` and the materializing of eager blobs (api/session.ts:214-360): it calls `readBlobs`.
- `resolveExpandStar` (api/session.ts:524-541): its cache of rewrites, and the handle lost when the rewrite throws.
- `Pool.clearStatementCaches` (pool/pool.ts:195-198), which works on connections in use without their lock.
- The hashes, proof and server data of the key exchange (protocol/auth/srp.ts:64-78, 132-177): the hashes are parameters.
- `normalizeParams` (api/named-params.ts:139-147): its error for a text without markers.
- The row layout of batches, `toScaledBigInt` and range checks (protocol/batch.ts:43-63, 86-429).
- Wire.WireConnection.ReadOp: does not model an operation code that no legal server sends here, for which the callers throw a protocol error.
- BlobPipeline.ReadBlobs: models the pending close as carrying its blob's index, which the source's does not, and lets the server answer when it is awaited; both make no difference to a first-in-first-out connection. What the server has done with deferred closes is not said after an error that was lost.
- BlobUpload.WriteBlobStream: takes bytes; the encoding of text chunks is the column's codec, and a chunk that is neither is a source that fails.
- BlobCursor.Blob.Buffer: takes what the read-ahead hands over as the blob's bytes or an error, as `BlobPrefetch` proves; a promise that is stranded is a call that does not return.
- BlobPrefetch.BlobPrefetcher.Take: does not model the lock and the handle of a fetch, which are those of `ReadBlobWindow`.
- InlineCache.InlineBlobCache.Store: models the nested maps as one map by transaction and blob.
- Batch.RunBatch: does not model the upload of blob values, named rows and the encoding of a row, whose errors end the batch as a refusal does.
- StatementProtocol.Prepare: does not model the parsing of the description.
- StatementCache.Session.RunStatement: does not model `expandStar` and the parameters' own requests.
- ScriptExecutor.ScriptRun.ExecuteScript: takes the script parsed and the commands classified.
- Transactions.Transaction.Run: does not model query options and the lock.
- Savepoints.ScopesAsMeant: is about regular behaviour; what an irregular step does is in the three exact lemmas, each for any state it may start from. For whole programs there is no such condition on the steps, since a later rollback may make an irregular one good (`Savepoints.MadeGood`).
- Savepoints.RefusedRollbackExactly: is about a scope whose body is regular.
- ConnectionPool.Pool.Release: is about whoever holds the connection, or a connection the pool does not know; one that gives back what another has been lent is not modelled.
- ScriptParser.ParseScript: gives no kind of statement.
- ScriptParser.SplitExactly: is about terminators of one character and scripts without SET TERM; `ParseScript` is for all.
- ExpandStar.ExpandStarSql: maps case in ASCII only, as do `Special` and SET TERM; the source's mapping of other letters is not modelled.
- ScaledDecimal.TextIsNearest: exponents are integers of any size; the source's lose precision beyond fifteen digits and throw where a power of ten is too large for the engine.
- ExpandStar.ExpansionMeans: speaks of the names that are written for the stars; that the new text, read again, has those names for its items is not stated.
- DecFloat.EncodeDecode: exponents are integers of any size; the source's are rounded to double precision when they have more than fifteen digits, far outside every field.
- Transport.ReceivesWhatWasSent: models the direction from sender to receiver once; the other has its own cipher and is the same.
