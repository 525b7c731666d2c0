# Verified model of the syslogq backend

syslogq takes syslog and JSON messages over the network, queues and batches them
into VictoriaLogs, and lets users search the result. This project models the parts
of its Go backend where the behaviour is hard to see from one function and proves
what they promise:

- **Ingestion pipeline** (`Pipeline*.dfy`). Producers, per-source bounded queues,
  dispatchers, the shared channel, the batcher, the batches channel and the writer
  pool are a labelled transition system: one step for each select, channel
  operation, cancellation, write attempt or goroutine exit, taken in any order, for
  any number of sources, producers and workers. `PipelineShape` is the invariant of
  every reachable state, `PipelineAccount` conservation and per-source order,
  `PipelineDrain` shutdown, `PipelineQueue` the overflow policies, `PipelineExits` the
  two ways out that nothing counts and exactly when they are taken, `PipelineMetrics`
  what each counter counts. `PipelineCode`
  holds the sequential loops (batcher, counters, retry) as code.
- **Queries** (`Query*.dfy`). The filter compiler and the recursive-descent parser as
  code, a grammar the parser refines, the accepted language as the spellings of a tree,
  the exact round trip between compiler and parser, what recompiling a user's query keeps, and
  where a user's text can end up.
- **Framing** (`Frame*.dfy`). The TCP deframer of sections 3.4.1 and 3.4.2 of RFC 6587
  over a byte stream and any read-buffer size: what every stream delivers, how far the
  reader is ahead after each frame, and which mixtures of frames come back.
- **Parsers** (`Syslog.dfy`, `Rfc5424*.dfy`, `Rfc3164.dfy`, `Detect.dfy`). Both syslog
  parsers as code, printers for their formats, the exact language RFC 5424 parsing
  accepts, losslessness of RFC 3164 parsing, and detection against parsing.
- **Supporting loops**. Size shedding in the normalizer (`Normalizer.dfy`), the volume
  chart's zero-fill (`Volume.dfy`) and export paging (`Export.dfy`).

Query text is a sequence of code points; messages and frames are sequences of bytes.
What an operation does is also said with its characters, bytes and limits written out
(`QueryText`, `FrameBytes`, `SyslogBytes` and the lemmas named below), so that nothing
rests on a shared definition or constant alone.
Where the Go code updates things step by step the model is a class or a loop, proved
against a function; the functions read the text that is left, so that what is proved
about them does not mention indices.

## Where the code and its documentation differ

The model follows the code, and each difference is proved.

- `pipeline.go:21-23` says the only exits are storage and a counted drop. Two more
  exist. After the hard deadline the batcher discards what it reads from the shared
  channel without counting it (line 353), and what is admitted to a queue whose
  dispatcher has left stays there: `Stop` assumes that no producer is left
  (lines 130-133), while `cmd/syslogq/main.go:153-155` stops HTTP after it.
  `ContractExactly` says when the contract holds at rest: for a source that, when the
  batcher took its hard exit, had nothing on the shared channel and whose dispatcher
  sent nothing afterwards, and to which nothing was admitted after its dispatcher had
  left. `LossRun`, under any settings, and `LateArrivalIsStranded` show both exits taken.
- `ast.go:149-152` says bare values hold no metacharacter, but `~` is one (line 171): an
  equality filter whose value is bare and starts with `~` is printed as a match filter.
  The round trip holds exactly for trees without one (`RoundTrip`); with one the meaning can change
  (`TildeChangesMeaning`), and `RecompileAny` says what it becomes.
- `frame.go:15-16` decides the framing at each clean boundary, but a delimiter is one only
  if the reader has nothing buffered beyond it. `CleanExactly` says when: not after a
  line of up to ten digits, whose failed probe takes the delimiter and one more slice;
  otherwise after an LF, after a line so long that it was dropped, and after a NUL only
  if it is the last byte of a full slice or of the stream. An octet-counted frame right
  behind any other line, in particular behind a NUL-terminated one, is read as part of
  a line (`MixedExactly`, `DigitLineHides`, `NulLineHides`). A line of max + 1 bytes
  ending in CR is refused or delivered depending on where the reads fall
  (`FrameOutcome`).
- `rfc5424.go:31` speaks of versions without leading zeros; the code accepts them, and
  detection does not (`AcceptedIsDetected`).
- `normalizer.go:166` writes a map that may be nil. `PanicsExactly` gives the condition,
  `PanicBounds` that it needs a raw message of more than 195584 bytes under the default
  limits, and `LongPidStops` BSD messages within the default frame limit on which it
  happens.
- `storage.go:39-41` promises buckets at epoch multiples of the step, and `zeroFill`
  calls itself epoch-aligned, but it counts from year 1. The grids agree exactly if the
  step divides 719162 days; otherwise every promised bucket is missed (`EpochBuckets`),
  as with seven days (`WeekIsAllZero`).
- `query.go:165` promises a positive bucket size; the day form of lines 160-162 is not
  checked (`BucketIsPositive`), and a zero then stops the handler at a division
  (`Volume`).

## Model

| member | source | states |
|---|---|---|
| PipelineShape.ShapeStep | backend/internal/ingestion/pipeline.go:228-400 | every step of any goroutine keeps the invariant: queue and channel bounds, who can still be where after each cancellation and channel close, batch limits, attempt counts |
| PipelineShape.SafeOverRuns | backend/internal/ingestion/pipeline.go:113-128 | on every run no goroutine sends on a closed channel, no queue or channel exceeds its capacity, and every batch waiting for the writers is within its bounds |
| PipelineShape.CollectOk | backend/internal/ingestion/pipeline.go:344-348 | an entry added to a batch below both limits leaves it below both, or makes a batch that has reached one: of 1 to max entries and below the byte limit without that entry |
| PipelineShape.FlushCause | backend/internal/ingestion/pipeline.go:334-350 | over any run the batcher is about to hand on a batch only because it has just reached a limit or because a tick or the closed channel found it nonempty, and after a tick or a flush it holds none |
| PipelineShape.ByteSizeAdds | backend/internal/ingestion/pipeline.go:345 | a batch's bytes are the sum of its entries' sizes |
| PipelineShape.BatchBytes | backend/internal/ingestion/pipeline.go:344-348 | a batch of entries of at most a bytes totals fewer than the byte limit plus a |
| PipelineAccount.BatchConserves | backend/internal/ingestion/pipeline.go:310-358 | a batcher step splits what it holds, in order, into emitted, counted as dropped, lost and still held, and loses or drops nothing before the hard deadline |
| PipelineAccount.CreditAt | backend/internal/ingestion/pipeline.go:402-429 | the grouped counters credit each source with exactly its own entries of the batch |
| PipelineAccount.BalanceStep | backend/internal/ingestion/pipeline.go:228-429 | each step moves messages between the places of the account and never duplicates or forgets one |
| PipelineAccount.AccountOverRuns | backend/internal/ingestion/pipeline.go:168-429 | on every run, hard deadline or not, received = in flight + stored + counted drops + discarded at line 353, and the last is zero before the hard deadline |
| PipelineAccount.KeepEvict | backend/internal/ingestion/pipeline.go:242-246 | evicting an entry takes that entry and nothing else out of the surviving sequence |
| PipelineAccount.OrderOverRuns | backend/internal/ingestion/pipeline.go:228-358 | before the hard deadline, under every interleaving, a source's admitted entries minus evictions are, in order, its emitted entries, its entries in the open batch and the shared channel, the dispatcher's hand, and the queue |
| PipelineDrain.RankStep | backend/internal/ingestion/pipeline.go:228-400 | every step but an arrival and an idle tick strictly decreases one natural number, whatever has been cancelled |
| PipelineDrain.Quiesces | backend/internal/ingestion/pipeline.go:130-149 | without arrivals a run makes at most as many moves as the rank of its first state |
| PipelineDrain.NoDeadlock | backend/internal/ingestion/pipeline.go:113-149 | after the soft cancel some move is always possible until every goroutine has exited |
| PipelineDrain.FinalRests | backend/internal/ingestion/pipeline.go:133-149 | once every goroutine has exited no move is left |
| PipelineDrain.FinalAccount | backend/internal/ingestion/pipeline.go:133-149 | at rest, channels are empty and a source's messages are stored, dropped, lost or still on its queue |
| PipelineDrain.GracefulStop | backend/internal/ingestion/pipeline.go:130-149 | with the listeners closed and the deadline not reached, Stop makes boundedly many moves, is never stuck, and ends with all queues and channels empty and every message stored or dropped for a reason other than shutdown |
| PipelineExits.SwallowLoses | backend/internal/ingestion/pipeline.go:351-355 | each entry the batcher reads after the hard deadline leaves the pipeline uncounted |
| PipelineExits.LossRun | backend/internal/ingestion/pipeline.go:21-23 | for every setting of a single source and every message size, a run from the start on which the one message received is neither stored, dropped nor in flight |
| PipelineExits.LostOverRuns | backend/internal/ingestion/pipeline.go:351-355 | over any run the lost entries of a source are counted by the batcher's discarding reads of its entries |
| PipelineExits.DoomedOverRuns | backend/internal/ingestion/pipeline.go:277-286 | from the batcher's hard exit on, lost plus what is on the shared channel grows by one exactly when the source's dispatcher sends |
| PipelineExits.LostExactly | backend/internal/ingestion/pipeline.go:351-355 | a run at rest lost something of a source exactly if one of its entries was on the shared channel at the batcher's hard exit or its dispatcher sent one afterwards |
| PipelineExits.LateArrivalIsStranded | backend/internal/ingestion/pipeline.go:130-133 | a message that arrives at a queue with room after that source's dispatcher has left, under any policy and whoever still runs, is put on the queue and counted nowhere |
| PipelineExits.StaysStranded | backend/internal/ingestion/pipeline.go:228-308 | in every further run such an entry is on the queue exactly if it was not evicted |
| PipelineExits.StrandedExactly | backend/internal/ingestion/pipeline.go:288-308 | a run at rest leaves on a queue exactly what was admitted after the dispatcher left, minus evictions, and something exactly if anything was admitted then |
| PipelineExits.ContractExactly | backend/internal/ingestion/pipeline.go:21-23 | at rest every message of a source is stored or counted as dropped exactly if neither of the two uncounted exits was open to it |
| PipelineAccount.TakenOverRuns | backend/internal/ingestion/pipeline.go:360-365 | the writers take the batches in the order the batcher emitted them, none skipped and none twice |
| PipelineMetrics.IntakeCounts | backend/internal/ingestion/pipeline.go:168-259 | received, queue_full, oversized, parse_error and shutdown each grow exactly on their own intake step, queue_full by one refusal or eviction at a full queue |
| PipelineMetrics.DispatchCounts | backend/internal/ingestion/pipeline.go:277-308 | a dispatcher counts as shutdown drops the entry it gives up and those it dumps, and nothing else |
| PipelineMetrics.BatchCounts | backend/internal/ingestion/pipeline.go:319-358 | the batcher counts as shutdown drops the batch open at its hard exit and a batch whose flush the deadline wins, and nothing else |
| PipelineMetrics.WriteCounts | backend/internal/ingestion/pipeline.go:369-400 | stored grows by an accepted batch, storage_rejected by a refused one, write_failed at the third failure, shutdown when the deadline wins a wait, and nothing else |
| PipelineMetrics.DispatcherTurns | backend/internal/ingestion/pipeline.go:261-308 | a dispatcher sends just what it took from the front of its queue; after giving an entry up or seeing the hard deadline it sends nothing until its queue is empty, and it leaves only then |
| PipelineMetrics.WorkerTurns | backend/internal/ingestion/pipeline.go:360-400 | a worker takes the oldest batch, makes up to three attempts on it with a wait after each failure, and is idle again once it is resolved |
| PipelineQueue.OffersOverRuns | backend/internal/ingestion/pipeline.go:228-259 | with any number of producers every entry offered to a queue that may refuse is admitted, refused or still in enqueue; every queue_full drop is one refusal or one eviction; a blocking queue has none |
| PipelineQueue.DropOldestAdmits | backend/internal/ingestion/pipeline.go:236-251 | with one producer drop_oldest admits every entry, whatever the rest of the pipeline does between its three selects |
| PipelineQueue.FullQueueHolds | backend/internal/ingestion/pipeline.go:236-258 | with nothing dispatched and one producer, drop_newest holds the first messages offered up to capacity and drop_oldest the last, in order and each identified by its number of receipt |
| PipelineCode.BatchBuffer.Add | backend/internal/ingestion/pipeline.go:341-348 | appends an entry and hands the batch out exactly when it then has max entries or max bytes |
| PipelineCode.BatchBuffer.Take | backend/internal/ingestion/pipeline.go:319-350 | a tick hands out the open batch if it has entries, then the new entry does exactly if it makes a batch reach a limit; what is handed out and kept is the old batch and the entry in order |
| PipelineCode.BatcherLoop | backend/internal/ingestion/pipeline.go:310-358 | the stream is cut, in order, into batches sent within their bounds or dropped and, after the hard exit, a lost rest; without the deadline everything is sent, and without ticks every batch but the last has reached a limit |
| PipelineCode.NormalizedBatch | backend/internal/ingestion/pipeline.go:478-480 | batches of entries normalized under the default limits stay below the batch byte limit plus the entry limit |
| PipelineCode.GroupBySource | backend/internal/ingestion/pipeline.go:402-408 | the counting loop yields each source's number of entries and the batch's byte size |
| PipelineCode.Counters.CountStored | backend/internal/ingestion/pipeline.go:402-413 | every source's stored counter grows by its entries in the batch, the bytes by the batch's size |
| PipelineCode.Counters.DropEntries | backend/internal/ingestion/pipeline.go:420-429 | every source's counter for the reason grows by its entries in the batch and no other counter moves |
| PipelineCode.Counters.WriteBatch | backend/internal/ingestion/pipeline.go:369-400 | the retry loop puts the whole batch into exactly one counter: stored, or dropped for one reason |
| PipelineCode.ResolveMeans | backend/internal/ingestion/pipeline.go:367-400 | stored, rejected, given up or abandoned, each exactly by how at most three attempts end and whether the deadline wins a wait between them |
| PipelineCode.WriterSettles | backend/internal/ingestion/pipeline.go:360-400 | the retry loop is a run of the transition system that settles the batch once and changes nothing else |
| QueryAst.IsBare | backend/internal/query/ast.go:160-177 | true exactly for nonempty non-keywords of letters, digits and `_ . - / @ + ~` |
| QueryAst.ValidField | backend/internal/query/ast.go:203-216 | true exactly for nonempty names of letters, digits, underscores and dots |
| QueryAst.Quote | backend/internal/query/ast.go:183-198 | the quoted text with exactly the quotes and backslashes escaped |
| QueryAst.ValueOut | backend/internal/query/ast.go:149-158 | a value comes out unquoted exactly if it is a nonempty non-keyword of letters, digits and `_ . - / @ + ~` |
| QueryAst.CompileTo | backend/internal/query/ast.go:73-102 | appends the rendering of a valid tree to what was written, or reports the first error in text order |
| QueryAst.CompileChild | backend/internal/query/ast.go:104-116 | an operand of AND, in parentheses exactly if it is an OR |
| QueryAst.Compile | backend/internal/query/ast.go:58-71 | the text of a valid tree, the empty text of no tree, or the first error |
| QueryContainment.CompiledIsContained | backend/internal/query/ast.go:58-61 | whatever the values hold, a scan of the compiled text ends outside quotes at depth 0, never below it, with only letters, digits, `_ . - / @ + ~`, operators and spaces unquoted and a star only after a colon |
| QueryText.ValueTextIs | backend/internal/query/ast.go:149-177 | the text of every value, with the characters that keep it unquoted written out |
| QueryText.EscapeIs | backend/internal/query/ast.go:183-198 | in quotes a quote and a backslash get a backslash in front and no other character changes |
| QueryText.FilterTexts | backend/internal/query/ast.go:118-143 | the text of a filter for each of the nine ops, character by character |
| QueryText.FilterErrors | backend/internal/query/ast.go:118-143 | a filter is refused exactly for its field or, failing that, for its op |
| QueryText.TreeTexts | backend/internal/query/ast.go:73-116 | the text of AND, OR and NOT from the texts of their operands, or the first error |
| QueryText.TwoWords | backend/internal/query/parse.go:32-70 | words with a space or AND between them are both meant, with OR one of them |
| QueryText.ThreeWords | backend/internal/query/parse.go:32-70 | AND binds tighter than OR and chains lean to the left |
| QueryText.NotAndGroup | backend/internal/query/parse.go:72-95 | NOT takes one operand and parentheses group |
| QueryText.QuotedPhrase | backend/internal/query/parse.go:169-187 | a quoted phrase is what is between the quotes, a backslash taking the next character as it is |
| QueryText.FiltersRead | backend/internal/query/parse.go:123-167 | the operators and the existence star as they are written |
| QueryParser.Parser.TakeQuoted | backend/internal/query/parse.go:169-187 | reads a quoted string with its escapes, or reports that it is not closed |
| QueryParser.Parser.TakeKeyword | backend/internal/query/parse.go:191-211 | takes a keyword exactly if a space, a parenthesis or the end follows it |
| QueryParser.Parser.ParseFilter | backend/internal/query/parse.go:123-167 | reads operator and value of a filter as the grammar does |
| QueryParser.Parser.ParseTerm | backend/internal/query/parse.go:97-121 | reads a phrase, a word or a filter as the grammar does |
| QueryParser.Parser.ParseUnary | backend/internal/query/parse.go:72-95 | reads NOT, a parenthesised query or a term as the grammar does |
| QueryParser.Parser.ParseAnd | backend/internal/query/parse.go:53-70 | reads an explicit or implicit AND chain, nested to the left |
| QueryParser.Parser.ParseOr | backend/internal/query/parse.go:32-48 | reads an OR chain, nested to the left, terminating on every text |
| QueryParser.Parse | backend/internal/query/parse.go:14-25 | terminates on every text and succeeds only when all of it has been read |
| QueryRoundTrip.ParseCompiled | backend/internal/query/parse.go:14-187 | what parsing makes of the compiled text of every valid tree, tilde filters included |
| QueryRoundTrip.RoundTrip | backend/internal/query/ast.go:73-198 | compiling and parsing back gives the left-nested tree with its ops spelled out exactly if no equality filter has a bare value starting with a tilde |
| QueryMeaning.ExactRoundTrip | backend/internal/query/ast.go:73-198 | on canonical trees the very same tree comes back, under the same exact condition |
| QueryMeaning.CanonicalIffFixed | backend/internal/query/parse.go:32-70 | the canonical trees are exactly those that left-nesting does not change |
| QueryMeaning.LeftNestKeeps | backend/internal/query/ast.go:73-116 | left-nesting keeps the compiled text, validity and truth value and makes a tree canonical |
| QueryMeaning.KnownRejects | backend/internal/query/ast.go:118-143 | a tree the parser can build is rejected by the compiler only for a field name |
| QueryMeaning.Recompile | backend/internal/api/query.go:32-42 | a query that parses compiles unless a field name is bad, and without tilde filters the compiled text parses to a tree of the same truth value under every interpretation that compiles to the same text |
| QueryMeaning.RecompileAny | backend/internal/api/query.go:32-42 | for every query that compiles, tilde filters or not: the compiled text fails to parse exactly if some equality filter has the value `~`; otherwise it has, under every interpretation, the truth value of the query with its tilde filters read as match filters, and later recompilations keep the tree |
| QueryMeaning.TildeChangesMeaning | backend/internal/query/ast.go:171 | a quoted value starting with a tilde comes back from recompilation as a match filter that some interpretation tells from the original |
| QuerySpelling.SpellingReads | backend/internal/query/parse.go:32-187 | every spelling of a query (implicit or explicit AND, NOT with or without parentheses, any grouping, quoting and spacing, none included where a token ends itself) is read as the tree it stands for: NOT before AND before OR, chains to the left |
| QuerySpelling.AcceptsExactly | backend/internal/query/parse.go:14-187 | parsing yields a tree exactly on the spellings of that tree, so the accepted language is described from both sides |
| QuerySpelling.ReadBare | backend/internal/query/parse.go:123-167 | an unquoted filter value may hold any character but a separator and is kept as written under its operator |
| QuerySpelling.ReadWordToken | backend/internal/query/parse.go:97-121 | an unquoted word that is not NOT is a phrase, up to the next separator |
| Frame.FrameReader.TakeCounted | backend/internal/ingestion/frame.go:136-155 | a counted payload is delivered, skipped when over the limit, or cut off by the end of the stream |
| Frame.FrameReader.TryOctetCounted | backend/internal/ingestion/frame.go:114-164 | the probe decides a counted frame or hands back exactly the bytes it took |
| Frame.FrameReader.TakePending | backend/internal/ingestion/frame.go:51-62 | takes the frame before the first delimiter, strips one CR and checks its length |
| Frame.FrameReader.Next | backend/internal/ingestion/frame.go:48-112 | one call of next is one application of the reading function to the reader's state |
| Frame.Read | backend/internal/ingestion/frame.go:48-112 | between calls nothing is being discarded, and every call that is not fatal consumes at least one byte of what is pending and to come |
| FrameTheorems.NextDelimited | backend/internal/ingestion/frame.go:48-112 | unless the unread bytes start with an octet count, one call takes the first LF or NUL frame off pending and stream, for any buffer size; oversize refused in one read or in discard mode alike; an unterminated tail is never delivered |
| FrameTheorems.NextCounted | backend/internal/ingestion/frame.go:114-164 | a count of up to ten digits and a space are followed by a frame of exactly that many bytes, whatever they are |
| FrameTheorems.DelimitedStream | backend/internal/ingestion/frame.go:48-112 | a stream of delimited frames is delivered as its plain split whatever the buffer size and wherever the reads fall |
| FrameMixed.ReadsExactly | backend/internal/ingestion/frame.go:48-112 | one call, for any stream, buffer size and bytes already buffered: its outcome and exactly how many bytes of the rest it leaves buffered |
| FrameMixed.StreamExactly | backend/internal/ingestion/frame.go:48-164 | everything any stream delivers, with no exclusion: each frame is counted or delimited according to how far the reader is ahead when it comes |
| FrameMixed.CleanExactly | backend/internal/ingestion/frame.go:82-112 | when a call that starts with nothing buffered ends so: by delimiter, probe, slice boundary and oversize path |
| FrameMixed.MixedFraming | backend/internal/ingestion/frame.go:48-164 | any list of counted frames, LF lines and NUL lines in which no counted frame comes while the reader is ahead comes back once, in order, a frame over the limit as one oversize error that leaves the others alone |
| FrameMixed.MixedExactly | backend/internal/ingestion/frame.go:48-164 | with counted frames within the limit, such a list comes back exactly if no counted frame comes while the reader is ahead |
| FrameMixed.InTurnExactly | backend/internal/ingestion/frame.go:48-164 | for lists of frames of any size: each call takes exactly the next frame, with its outcome, exactly if every counted frame comes while nothing is buffered or is over the limit with its only delimiter as its last byte |
| FrameMixed.LinesExactly | backend/internal/ingestion/frame.go:48-112 | a stream in which no frame looks counted is delivered as the split into its lines, those of max + 1 bytes ending in CR included |
| FrameMixed.NeatReadable | backend/internal/ingestion/frame.go:48-164 | in lists of counted frames and LF lines not of up to ten digits only, none does |
| FrameMixed.CountBehindLine | backend/internal/ingestion/frame.go:82-112 | a counted frame right behind a line is delivered exactly if the line leaves nothing buffered |
| FrameMixed.DigitLineHides | backend/internal/ingestion/frame.go:82-95 | a line of up to ten digits, whatever its delimiter, leaves something buffered |
| FrameMixed.NulLineHides | backend/internal/ingestion/frame.go:95-108 | so does a NUL line, unless its length makes the NUL end a full slice or the line is dropped before |
| FrameMixed.DigitLineHidesCount | backend/internal/ingestion/frame.go:82-95 | a line of digits hides the octet-counted frame right behind it, which by itself is delivered |
| FrameBytes.PlainLine | backend/internal/ingestion/frame.go:48-63 | a line not ending in CR, before an LF or NUL, is delivered as it is or refused exactly if it is over the limit, and what follows is kept |
| FrameBytes.CrLine | backend/internal/ingestion/frame.go:54-56 | one CR before the delimiter is removed |
| FrameBytes.SecondCrStays | backend/internal/ingestion/frame.go:54-56 | only one |
| FrameBytes.CountedBytes | backend/internal/ingestion/frame.go:114-155 | up to ten digits and a space announce that many bytes, delivered or skipped if over the limit |
| FrameBytes.NumberIs | backend/internal/ingestion/frame.go:132 | the count is the decimal number the digits spell |
| FrameBytes.CutOff | backend/internal/ingestion/frame.go:136-155 | a stream that ends inside an announced payload ends the connection with its error |
| FrameBytes.NoDelimiter | backend/internal/ingestion/frame.go:95-111 | an unterminated line is never delivered |
| Syslog.ParsePri | backend/internal/parser/rfc3164.go:46-64 | agrees with the PRI function and consumes nothing on failure |
| Syslog.PriReads | backend/internal/parser/rfc3164.go:46-64 | digits between angle brackets are accepted exactly if there are one to three worth at most 191, with their value |
| Syslog.PriConsumes | backend/internal/parser/rfc3164.go:46-64 | whatever is accepted has that shape |
| Rfc5424.ReadValue | backend/internal/parser/rfc5424.go:153-178 | the value loop yields the unescaped value and its end, or finds no closing quote |
| Rfc5424.ReadParams | backend/internal/parser/rfc5424.go:138-183 | the param loop folds the params of an element into the fields or reports the first error |
| Rfc5424.ParseStructuredData | backend/internal/parser/rfc5424.go:110-197 | the nested index loops compute the suffix-based reading of the structured data, errors included |
| Rfc5424.Parse | backend/internal/parser/rfc5424.go:21-85 | the parser computes the reading of the whole message, errors in the code's order included |
| Rfc5424RoundTrip.RoundTrip | backend/internal/parser/rfc5424.go:21-85 | every printed record is read back: facility and severity from the priority, a dash as empty, all params folded, the message without its byte order mark; only the stamp can fail |
| Rfc5424RoundTrip.ValueReads | backend/internal/parser/rfc5424.go:153-178 | escaping and reading a value is the identity on all byte strings (section 6.3.3 of RFC 5424) |
| Rfc5424RoundTrip.FoldMeans | backend/internal/parser/rfc5424.go:179-182 | the fields map each name to the value of its last occurrence and hold no other name |
| Rfc5424RoundTrip.Stable | backend/internal/parser/rfc5424.go:21-85 | every accepted message, printed again, is accepted and yields the same record |
| Rfc5424Language.SentenceReads | backend/internal/parser/rfc5424.go:21-197 | every text of the described shape is understood as described, unless the clock does not know its stamp |
| Rfc5424Language.AcceptedIsSentence | backend/internal/parser/rfc5424.go:21-197 | every accepted text has that shape, so nothing of the input goes unread |
| Rfc5424Language.AcceptsExactly | backend/internal/parser/rfc5424.go:21-197 | the accepted language, both directions |
| Rfc3164.ParseHostname | backend/internal/parser/rfc3164.go:96-113 | a host name is the text up to a space, at most 255 bytes, without colon and not only dashes and dots |
| Rfc3164.SplitTagMessage | backend/internal/parser/rfc3164.go:115-148 | the tag loop computes the tag, pid and message of the split function |
| Rfc3164.SplitCuts | backend/internal/parser/rfc3164.go:115-148 | the input of the split is spaces, then either the message or a valid tag, a bracketed pid if any, a colon, spaces and the message |
| Rfc3164.SplitReads | backend/internal/parser/rfc3164.go:115-148 | every valid tag, pid without closing bracket and message without leading space, printed, is recovered |
| Rfc3164.SplitExactly | backend/internal/parser/rfc3164.go:115-148 | a tail is recovered exactly if it has a tag or its message does not look as if it had one |
| Rfc3164.Parse | backend/internal/parser/rfc3164.go:18-44 | the parser is total and computes the parsing function |
| Rfc3164.Lossless | backend/internal/parser/rfc3164.go:18-44 | every input is the PRI text, the stamp, at most one space, the host and the tail that the returned fields stand for |
| Rfc3164.RoundTrip | backend/internal/parser/rfc3164.go:18-44 | a message printed with or without PRI and host, with a known stamp in BSD or ISO form and any tail the split can recover, is read back field by field (section 4.1 of RFC 3164) |
| Detect.DetectFormat | backend/internal/parser/detect.go:7-37 | the index loops compute the format of the sniffing function |
| Detect.DetectsVersion | backend/internal/parser/detect.go:24-36 | after a valid PRI the answer is rfc5424 exactly if the parser accepts the version and it has no leading zero, else rfc3164 |
| Detect.AcceptedIsDetected | backend/internal/parser/detect.go:24-36 | a message the RFC 5424 parser accepts is detected as such exactly if its version does not start with 0 |
| Detect.DetectedIsVersioned | backend/internal/parser/rfc5424.go:24-39 | a message detected as RFC 5424 never fails at its version, and at its PRI exactly if that has over three digits or exceeds 191 |
| SyslogBytes.PriBytes | backend/internal/parser/rfc3164.go:46-64 | every text of digits between angle brackets, with its bytes |
| SyslogBytes.EscapeBytes | backend/internal/parser/rfc5424.go:155-167 | in a value a backslash before a quote, backslash or closing bracket stands for that byte, before any other for itself |
| SyslogBytes.PlainMessage | backend/internal/parser/rfc5424.go:21-85 | every message without structured data, byte by byte |
| SyslogBytes.DataMessage | backend/internal/parser/rfc5424.go:21-197 | every message with one element and param, byte by byte |
| SyslogBytes.IdBytes | backend/internal/parser/rfc5424.go:130-137 | an element id runs up to a space or closing bracket and needs no params |
| SyslogBytes.NameBytes | backend/internal/parser/rfc5424.go:138-146 | a param name with a space or closing bracket before its equals sign is refused |
| SyslogBytes.TaggedBytes | backend/internal/parser/rfc3164.go:115-148 | up to 48 letters, digits and `_ . / -` before a colon, or a bracketed pid and a colon, are the tag |
| SyslogBytes.UntaggedBytes | backend/internal/parser/rfc3164.go:127-134 | any other start makes the whole text the message |
| SyslogBytes.NoColonBytes | backend/internal/parser/rfc3164.go:135-146 | so does a tag without its colon or with empty brackets |
| SyslogBytes.HostBytes | backend/internal/parser/rfc3164.go:96-113 | the first token is a host name exactly under the length, colon and dash-dot rules |
| SyslogBytes.StampBytes | backend/internal/parser/rfc3164.go:66-85 | the first 15 bytes, else a token of 10 to 35 bytes, are tried as a timestamp |
| SyslogBytes.DetectBytes | backend/internal/parser/detect.go:7-37 | what every text is detected as, byte by byte |
| Normalizer.LogEntry.EntrySize | backend/internal/normalization/normalizer.go:187-193 | message, raw text, host, 256 and the names and values of all fields, in whatever order they are listed |
| Normalizer.LogEntry.FirstKey | backend/internal/normalization/normalizer.go:171-176 | the least key in the order of sorted strings |
| Normalizer.LogEntry.EnforceSize | backend/internal/normalization/normalizer.go:147-185 | terminates; stops at the nil map exactly if Panics; otherwise message, raw text and surviving fields are as Enforced says, with a least sorted cut-off for the fields |
| Normalizer.Fits | backend/internal/normalization/normalizer.go:147-185 | the sum over message, raw text, host, fields and 256 is within the limit, or only a message within its limits is left; the host is kept and fields go only once the raw text has gone |
| Normalizer.KeepsFronts | backend/internal/normalization/normalizer.go:147-185 | only tails of message and raw text are cut and only the truncation mark is added; an entry within both limits is unchanged; a raw text cut but not given up is marked |
| Normalizer.Lengths | backend/internal/normalization/normalizer.go:150-182 | the message loses just what is over its limit; the raw text is kept if all fits, else cut to 1024 below the room left or given up |
| Normalizer.MarkStays | backend/internal/normalization/normalizer.go:150-156 | a message over its limit is cut and marked truncated, and with room for the mark nothing else changes |
| Normalizer.SizeIs | backend/internal/normalization/normalizer.go:187-193 | the size is that sum for every listing of the fields |
| Normalizer.LessIs | backend/internal/normalization/normalizer.go:175 | keys are ordered by their first differing byte, a front before what it starts |
| Normalizer.Determined | backend/internal/normalization/normalizer.go:170-176 | the described outcome is the only one: the cut-off is unique |
| Normalizer.Idempotent | backend/internal/normalization/normalizer.go:147-185 | enforcing the limits twice is enforcing them once, and the second time cannot stop |
| Normalizer.PanicBounds | backend/internal/normalization/normalizer.go:160-167 | without fields, a raw text over the entry limit stops the code and one that both limits leave room for never does |
| NormalizeParsed.LongPidStops | backend/internal/normalization/normalizer.go:160-167 | BSD messages with a pid of 261881 to 262136 bytes and no timestamp are within the default frame limit, are detected as RFC 3164, and are parsed into entries on which the code stops |
| Normalizer.ApproxBound | backend/internal/ingestion/pipeline.go:478-480 | what the batcher adds up for an enforced entry is at least 128 bytes below the entry limit |
| Volume.ZeroFill | backend/internal/api/query.go:171-181 | the loops compute the series over the grid from the truncated start to the end, zero where there is no count |
| Volume.Volume | backend/internal/api/query.go:125-152 | a range is refused exactly if more than 2000 whole steps fit in it; otherwise the caller gets the chart of the buckets, at most 2002 points that together with the missed counts hold the input's total; a zero step stops the handler and a negative one is refused |
| Volume.ChartShape | backend/internal/api/query.go:171-181 | zero-fill makes the chart: it starts within a step before the range on the year-1 grid, is evenly spaced, reaches into the last step and shows each point's count |
| Volume.ChartDetermined | backend/internal/api/query.go:171-181 | there is only one such chart |
| Volume.Conserves | backend/internal/api/query.go:171-181 | charted and missed counts add up to the input, so the total is kept exactly if every bucket off the grid or out of range is empty |
| Volume.EpochBuckets | backend/internal/storage/storage.go:39-41 | for the buckets storage promises the total is kept if the step divides 719162 days, and otherwise the chart is all zero |
| Volume.WeekIsAllZero | backend/internal/api/query.go:177 | a week's bucket at an epoch multiple of seven days vanishes from the weekly chart and is kept by the daily one |
| Volume.BucketIs | backend/internal/api/query.go:154-168 | nothing is five minutes, N days are N times 24 hours as far as 64 bits reach, a positive duration is itself |
| Volume.CountsMean | backend/internal/api/query.go:172-175 | the count at a time is the last bucket's with that time, or 0 |
| Volume.BucketIsPositive | backend/internal/api/query.go:154-168 | only the day form with a number below 1, or one that overflows, yields a step that is not positive; exactly when, for all numbers of days |
| Export.PageRows | backend/internal/api/export.go:127-160 | the pages join to the first limit rows, in order, with contiguous offsets, at most one request more than pages; a prefix of them if storage fails or the consumer stops |

## Left out

- Sockets, TLS, deadlines, idle timeouts, listeners: a connection is its bytes and the error that ends it.
- Clocks, timers, jitter and the back-off delay: a tick, a retry and a deadline are steps that may happen whenever they are possible.
- Storage: each write attempt is accepted, refused or unavailable as a whole; each search returns a slice of a fixed result set or fails. VictoriaLogs itself is not part of this model.
- Goroutines as running code: pipeline.go is a transition system over values, so the aliasing of a batch between the batcher and the writers is not captured. Its sequential loops are code in `PipelineCode`.
- The choice of format in `Ingest`, `IngestRaw` and `storeUnknown`: a message that reaches enqueue is an arrival, one that does not is a rejection; an unknown source, and a body that is no JSON object, count nothing and are left out.
- JSON messages, and the parsing of timestamps and of the missing year: partial functions from text to an instant.
- `applyFields` and `normalizeKey`: they rest on Unicode case mapping, white space and the order of map iteration, which this model has no account of; entries start from the fields these leave.
- Gauges, byte counters of the intake, logging, the recent-drops record.
- Query length limit and trimming in `parseRange`, and text that is not valid UTF-8: queries are sequences of code points.
- Error messages: errors are told apart by what went wrong, not by their text.
- Overflow of 64-bit times in the volume chart, except in the day form of the bucket size.
- The text of exports (NDJSON, JSON, CSV): only which rows are written.
- Authentication, audit, configuration, health and the frontend.
- Volume.Volume: starts from the parsed range and step; the handler's request parsing is not part of this model.
- QueryMeaning.Recompile: leaves out trees with a tilde filter, for which the promise may be false; QueryMeaning.RecompileAny covers them.
- FrameTheorems.DelimitedStream: leaves out lines of exactly max + 1 bytes ending in CR, whose outcome depends on where the reads fall; FrameMixed.LinesExactly covers them.
- FrameMixed.StreamExactly: ends the stream for good at its first read error, so that frames which still arrive after an idle timeout that found complete frames buffered are not part of this model.
- FrameMixed.MixedExactly: compares outcomes only and so leaves out counted frames over the limit that come while the reader is ahead, whose outcomes may agree by chance; FrameMixed.InTurnExactly, which also compares what is left to read, has no such limit.
