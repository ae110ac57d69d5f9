# gitscale, verified

Dafny models of the parts of gitscale whose correctness is hardest to see, with
machine-checked proofs about every input, every run or every interleaving. The
project is checked with `dafny verify dfyconfig.toml`.

Where the Go code updates things in place the model is imperative: a class with
the same fields, or a method with the same loop, proved against a specification
function. The laws are then lemmas about those functions.

| files | component |
|---|---|
| `Outbox`, `OutboxTimes`, `Metering` | transactional outbox with many drain replicas, and metered bytes end to end |
| `ArchiveStream` | chunked AEAD archive format: export loop and restore decoder |
| `QueryAst`, `QuerySyntax`, `QueryParser`, `QueryRender`, `QuerySpans`, `QueryAccepts`, `QueryRejects` | hand-written GraphQL parser: what it computes, exactly which texts it accepts, and the legal ones it does not |
| `CostWalk`, `CostAccount`, `CostAnalyzer`, `CostQueries`, `ObjectLiteral`, `JsonText`, `LiteralJson` | cost analysis of a parsed query; object literals to JSON |
| `TokenBucket` | token bucket and the cost meter on top of it |
| `CanonicalJson`, `CanonicalText`, `AuditChain` | canonical payloads and the hash-chained audit log |
| `ApprovalPolicy`, `ApprovalPlan`, `ApprovalQuorum`, `ApprovalReach`, `ApprovalService`, `ApprovalAnswers`, `ApprovalMemory`, `ApprovalDeadline`, `ApprovalActivity` | plan approval: policy, one plan, its quorum, its possible futures, the service over all runs, what it answers and writes down, the in-memory object, its deadlines, the workflow activity |
| `AgentsPolicy`, `AgentsParser`, `AgentsHeadings`, `AgentsEvaluate`, `AgentsRules`, `AgentsLines` | AGENTS.md predicates: key, parser, reach of a section, merge, enforcement, rules and lines as written |
| `BillingEvents` | idempotent billing recordings against an expiring outbox |
| `DekDestruction` | crypto-shredding of archived partitions |
| `Common` | optional values, bytes, decimals |

What the models take from outside is a parameter with a stated law: the AEAD
(`ArchiveStream.Ideal`: only what was sealed opens), the digest (any function),
`encoding/json` on scalars (`CanonicalJson.ScalarLaw`), `path.Match`, UUIDv5, map
iteration order, clocks, random bytes, and the fate of every database, Kafka and
Vault call. Transactions are atomic; tokens and seconds are reals; integers are
unbounded except where int64 wrap-around or a byte width matters.

## Findings

Where the code does not do what its documentation or a reader would expect, the
model follows the code, shows the failing case, and states exactly when the
expectation holds:

- The archive format alone does not detect a dropped tail: the decoder accepts exactly the frame-aligned prefixes of a stream (`ArchiveStream.DecodeStream`, `ArchiveStream.TruncationIsAccepted`). The checksum gate in front of it closes that gap: a restore of an unchanged object yields the whole plaintext or exhibits a digest collision (`ArchiveStream.RestoreArchive`, `ArchiveStream.ArchiveThenRestore`).
- Lists, objects, variable definitions and directive arguments are skipped without knowing comments, so the legal queries `{a(x: [1 # ]⏎])}` and `query Q($x: Int # "⏎) {a}` are rejected (`QuerySpans.CommentedListIsRejected`, `QuerySpans.CommentedVariablesAreRejected`). Exactly the texts that split into ordinary characters, complete strings and nested groups are read as one span (`QuerySpans.SpanReadsIff`); a comment without brackets and quotes does no harm (`QuerySpans.QuietCommentIsSkipped`).
- The parser accepts exactly the texts of one grammar, `QueryRender.Text` (`QueryAccepts.ParsesIff`). That grammar is not GraphQL's: a shorthand operation followed by a fragment (`{...F}fragment F on T{a}`), a float with an exponent as an argument (`{a(x: 1e5)}`), directives on a fragment definition, subscriptions, spreads with directives and inline fragments without a type are all rejected (`QueryRejects.ShorthandWithFragment`, `QueryRejects.PowerArgumentIsRejected`, `QueryRejects.DirectedFragmentIsRejected`, `QueryRejects.SubscriptionIsRejected`, `QueryRejects.SpreadStandsAlone`). It is also wider in places: a variable, a directive, a spread or an inline fragment's type may lack its name, and a number its digits after a minus sign.
- The object-literal conversion does not always yield JSON. Over all literals it does exactly when neighbours have one comma between them and there is none elsewhere, nothing is a comment, a block string, a float with an exponent or a variable, strings and numbers are JSON's, and true, false and null are keys only with their colon on the same line (`LiteralJson.ConvertsToJsonIff`). `{a: 1 b: 2}` and `{a: 1e5}` are legal, convert without an error and are not JSON (`LiteralJson.UnseparatedIsNotJson`, `LiteralJson.ScientificIsNotJson`).
- A rejected query is documented not to be free, but its charge may be denied and the denial is ignored: it pays exactly when the bucket holds the whole charge (`TokenBucket.RejectedPaysIff`), and never when the charge is above capacity, which by default starts at a complexity of 50010 for agents and 10010 for people (`TokenBucket.RejectedIsFreeIff`, `TokenBucket.RejectedIsFreeByDefault`).
- The page-size cap does not bind the default page size (`CostWalk.PageSizeOverCapIff`).
- A row that becomes visible late is overtaken in the topic (`Outbox.LateRowIsOvertaken`); a smaller row precedes a message exactly when the message's SELECT could see it (`Outbox.PublishedFirstIff`).
- Retry advice is sound exactly when the bucket refills and can hold the charge (`TokenBucket.RetryIsGrantedIff`).
- The audit hash does not cover the row id, the policy or the plan (`AuditChain.UncoveredFields`), and is ambiguous off the closed kind enums (`AuditChain.OpenKindsAreAmbiguous`).
- The approval activity documents errors only on transport faults, but its escalation fails exactly when a decision lands between a turn's poll and its call (`ApprovalActivity.Execute`); `ApprovalActivity.RacedExecution` is a whole execution that does.
- A plan nobody votes on stays pending for ever exactly when the first rung that does not notify the next one falls back (`ApprovalPlan.PendingForeverIff`).
- Validation bounds the required count by the length of the member list, which may repeat. Votes can pass a plan on its rung exactly when the group has that many distinct members (`ApprovalQuorum.CanPassIff`), and with escalations exactly when some rung it comes to wait on has (`ApprovalReach.CanBeApprovedIff`). `ApprovalQuorum.ValidatedButStuck` is a validated policy that fails this; no run of the service ever approves a plan under it (`ApprovalReach.TwiceListedNeverApproves`).
- A Never section is documented to last until the next heading of the same or a higher level, but any heading ends it: a rule is passed over exactly when the nearest heading above it is a subheading of the section (`AgentsHeadings.LostIff`, `AgentsHeadings.AsDocumentedIff`), as in `## Never`, `### x`, `- delete_branch: main` (`AgentsHeadings.SubheadingHidesRule`).
- A recording that is reported failed may have landed, so the sink can hold more than was reported recorded; it holds what was reported and what landed unreported (`Metering.BytesAreConserved`).
- Predicates share a key exactly when their sizes agree and their names and globs agree once joined by bars (`AgentsPolicy.KeyIff`). That separates parsed predicates but not hand-made ones (`AgentsPolicy.KeyCollides`, `AgentsEvaluate.HandMadeRuleIsLost`).
- DEK and CI events repeat exactly as often as their rows have expired (`BillingEvents.RepeatsAreExpiries`); natural keys with a bar in the hint collide (`BillingEvents.NaturalKeyCollides`).
- A legal hold does not protect a key version from the trim of a later one (`DekDestruction.HoldDoesNotProtect`); a version survives exactly when it is at or above the old bound and above every version that passes both gates with a trim that lands (`DekDestruction.SurvivesIff`).
- The configured key minimums are not monotone; they fall exactly when they were beyond a version still to be trimmed (`DekDestruction.MinimumsFallIff`, `DekDestruction.MinimumsFall`).

## Model

| member | source | states |
|---|---|---|
| `Outbox.StepKeeps` | plane/data/outbox/drain.go:38-156 | every insert, lock, select, publish, commit, rollback and expiry step keeps the invariant: processed or deleted rows are published, one lock holder, batches are sorted unprocessed prefixes |
| `Outbox.RunKeeps` | plane/data/outbox/drain.go:38-156 | the invariant after every interleaving of any number of replicas |
| `Outbox.NothingIsLost` | plane/data/outbox/expirer.go:85-105 | in every reachable state a processed or deleted row is in the topic, for a producer that keeps its interface's promise |
| `Outbox.PublishedFirstIff` | plane/data/outbox/drain.go:66-142 | a smaller row precedes a message in the topic if and only if it was visible to the SELECT that message came from |
| `Outbox.FirstPublicationsInOrder` | plane/data/outbox/drain.go:66-142 | when rows become visible in (created_at, id) order, first publications follow that order |
| `Outbox.PublishedIsAPrefix` | plane/data/outbox/drain.go:102-142 | published rows are closed under predecessors, so published-but-unprocessed rows are a prefix of the unprocessed ones |
| `Outbox.LateRowIsOvertaken` | plane/data/outbox/drain.go:66-142 | without the visibility order a larger row can be published first |
| `OutboxTimes.ProcessedWhenCommitted` | plane/data/outbox/drain.go:121-142 | in every run, read off its steps: an inserted row is in the table until a step deletes it, and carries a processing time if and only if a commit of a batch that holds it had that time |
| `OutboxTimes.CommittedOnce` | plane/data/outbox/drain.go:66-142 | no row is in two committed batches |
| `OutboxTimes.DeletedAfterTtl` | plane/data/outbox/expirer.go:85-105 | whatever deletes a row comes more than its TTL after that commit |
| `OutboxTimes.ExpireIff` | plane/data/outbox/expirer.go:91-97 | any rows processed that long ago may be deleted, and no others |
| `Outbox.Pipeline.PublishBatch` | plane/data/outbox/producer.go:46-52 | success is reported only when every event is out; an error leaves exactly the rows taken so far, possibly the whole batch, in the topic |
| `Outbox.Pipeline.DrainBatch` | plane/data/outbox/drain.go:38-156 | one cycle is a run of the protocol; for every fate of begin, lock, SELECT, publish, UPDATE and COMMIT, the result reported, the rows published, and the table: batch rows carry the cycle's time and all others are unchanged, including under a commit that lands though reported failed |
| `Outbox.Pipeline.DrainSelected` | plane/data/outbox/drain.go:72-156 | the same from the SELECT on |
| `Outbox.Pipeline.MarkAndCommit` | plane/data/outbox/drain.go:121-142 | exactly the batch is marked and the lock released |
| `Outbox.Pipeline.Rollback` | plane/data/outbox/drain.go:43-46 | giving up releases the lock and leaves table and topic alone |
| `Outbox.CollectIds` | plane/data/outbox/drain.go:122-126 | the ids marked are those of the batch |
| `Outbox.ExpireBatch` | plane/data/outbox/expirer.go:85-105 | deletes only processed rows past their TTL, the lowest ids first, at most the limit, and all of them when fewer |
| `Outbox.ExpireAll` | plane/data/outbox/expirer.go:65-83 | terminates with the exact count; on success no expired row is left, on failure only expired rows are gone |
| `Metering.StubSink.Record` | plane/git/sink/stub.go:30-41 | an event id is recorded once; events without an id always |
| `Metering.TwoTierCounter.Record` | plane/git/metering/counter.go:92-124 | the fate of the outbox transaction alone decides success and the row, which may land though an error is returned; the cache changes only as enforcement does |
| `Metering.TwoTierCounter.RecordEnforcement` | plane/git/metering/counter.go:135-151 | one key is rewritten from the value stored under it, or from zero if that is missing, unreadable or not answered |
| `Metering.CounterAdds` | plane/git/metering/counter.go:142-150 | while the cache answers, the stored decimal counts exactly what was added |
| `Metering.PlayKeeps` | plane/git/sink/stub.go:30-41 | over every run of recording, draining, redelivery and expiry, the sink holds each delivered event exactly once |
| `Metering.SelectionTotal` | plane/git/sink/stub.go:30-41 | a duplicate-free selection sums to at most the whole, and to the whole when complete |
| `Metering.RecordedIsTold` | plane/git/metering/counter.go:118-123 | in every run the recorded bytes are those reported recorded plus those that landed unreported |
| `Metering.BytesAreConserved` | plane/git/metering/counter.go:92-124 | sink bytes never exceed recorded bytes, reported or not, and equal them once the outbox is drained and delivered |
| `ArchiveStream.LabelInjective` | plane/workflow/billing/export_activity.go:174 | a chunk label determines partition and index |
| `ArchiveStream.WireLength` | plane/workflow/billing/export_activity.go:163-194 | the stream is the plaintext plus 32 bytes per chunk |
| `ArchiveStream.FrameLength` | plane/workflow/billing/export_activity.go:178-182 | every payload length fits uint32 and the decoder's cap |
| `ArchiveStream.FrameLayout` | plane/workflow/billing/export_activity.go:167-190 | a frame byte by byte: big-endian length, nonce, and the chunk of four mebibytes at its place sealed under `name:index` |
| `ArchiveStream.ChunkCountIff` | plane/workflow/billing/export_activity.go:157-166 | all chunks are four mebibytes but the last, which is not empty |
| `ArchiveStream.SendChunk` | plane/workflow/billing/export_activity.go:167-190 | a frame is length, nonce and sealed chunk under its label; the faults in order |
| `ArchiveStream.Export` | plane/workflow/billing/export_activity.go:157-201 | the wire is a prefix of the run's frames, all of them on success; hash input and bytesWritten agree with it |
| `ArchiveStream.PartitionsStayApart` | plane/workflow/billing/export_activity.go:174 | differently named partitions under one DEK never share a sealed label |
| `ArchiveStream.OpenedPayload` | plane/workflow/billing/restore_decoder.go:96-105 | a payload that opens at index k is the run's own k-th frame |
| `ArchiveStream.ReadFrame` | plane/workflow/billing/restore_decoder.go:65-105 | a turn ends cleanly only at the end of the stream, and yields a chunk only for the run's next frame |
| `ArchiveStream.DecodeStream` | plane/workflow/billing/restore_decoder.go:48-111 | for any bytes, what is written is a chunk-aligned prefix of the plaintext; accepted exactly on frame-aligned prefixes of the exported stream; otherwise tampered, unless reader, writer or key fails |
| `ArchiveStream.ExportThenRestore` | plane/workflow/billing/restore_decoder.go:48-111 | export then restore is the identity for every plaintext and name |
| `ArchiveStream.TruncationIsAccepted` | plane/workflow/billing/restore_decoder.go:65-70 | the decoder on its own accepts the stream cut after k frames and yields k chunks |
| `ArchiveStream.RestoreArchive` | plane/workflow/billing/restore_workflow.go:95-117 | the checksum gate refuses exactly a digest mismatch; past it, a restore of the verified object yields the whole plaintext or a collision |
| `ArchiveStream.ArchiveThenRestore` | plane/workflow/billing/verify_checksum_activity.go:47-73 | whatever becomes of the stored object, the sidecar the export wrote admits only the exported stream, up to collisions |
| `QueryParser.ParseQuery` | plane/application/graphql/cost/parser.go:100-147 | total on every input; returns what the reading functions return, and only raw values safe for the two-byte escape skip |
| `QueryParser.Parser.SkipWS` | plane/application/graphql/cost/parser.go:171-185 | the cursor lands where ignored tokens end |
| `QueryParser.Parser.ReadIdent` | plane/application/graphql/cost/parser.go:187-200 | reads the longest name after ignored tokens |
| `QueryParser.Parser.Expect` | plane/application/graphql/cost/parser.go:207-214 | succeeds exactly on the expected token |
| `QueryParser.Parser.ParseOperation` | plane/application/graphql/cost/parser.go:216-245 | name, skipped variables, directives and selections, as read |
| `QueryParser.Parser.ParseFragment` | plane/application/graphql/cost/parser.go:247-267 | name, type condition and selections, as read |
| `QueryParser.Parser.ParseSelectionSet` | plane/application/graphql/cost/parser.go:269-327 | terminates and reads a braced list of selections, as read |
| `QueryParser.Parser.ParseSelection` | plane/application/graphql/cost/parser.go:280-322 | field, spread or inline fragment, as read |
| `QueryParser.Parser.ParseField` | plane/application/graphql/cost/parser.go:329-374 | alias, arguments, directives and nested selections, as read |
| `QueryParser.Parser.ParseArgs` | plane/application/graphql/cost/parser.go:376-404 | the argument map, later names overwriting earlier ones |
| `QueryParser.Parser.ParseValue` | plane/application/graphql/cost/parser.go:406-448 | each value form with the raw text it spans |
| `QueryParser.Parser.ReadNumber` | plane/application/graphql/cost/parser.go:450-485 | integer value when it is one, raw text otherwise |
| `QueryParser.Parser.ReadString` | plane/application/graphql/cost/parser.go:487-512 | never slices out of range although the cursor may pass the end |
| `QueryParser.Parser.SkipBalanced` | plane/application/graphql/cost/parser.go:514-539 | ends at the matching bracket, strings skipped |
| `QuerySyntax.ReadValue` | plane/application/graphql/cost/parser.go:406-448 | consumes input and returns a raw value that does not end in a backslash |
| `QuerySyntax.ReadDocument` | plane/application/graphql/cost/parser.go:100-147 | every raw value of a read document is safe |
| `QueryRender.ValueReads` | plane/application/graphql/cost/parser.go:406-539 | every value of the grammar `Value` (no exponents), written with any ignored tokens before it and any span-safe text inside lists and objects, reads back as itself |
| `QueryRender.ArgsRead` | plane/application/graphql/cost/parser.go:376-404 | so does every argument list |
| `QueryRender.DirectivesRead` | plane/application/graphql/cost/parser.go:226-240 | so does every directive list, its arguments being span-safe text |
| `QueryRender.FieldReads` | plane/application/graphql/cost/parser.go:329-374 | so does every field, with alias, arguments, directives and nested selections |
| `QueryRender.SelsRead` | plane/application/graphql/cost/parser.go:269-327 | so does every selection list |
| `QueryRender.OperationReads` | plane/application/graphql/cost/parser.go:216-245 | so does every operation, its variable definitions being span-safe text |
| `QueryRender.FragmentReads` | plane/application/graphql/cost/parser.go:247-267 | so does every fragment definition without directives |
| `QueryRender.DocumentReads` | plane/application/graphql/cost/parser.go:100-147 | every text of the grammar `Text`, with any ignored tokens between its tokens and span-safe text inside brackets that are skipped unread, reads back as itself |
| `QueryRender.ParseRendered` | plane/application/graphql/cost/parser.go:100-147 | the parser returns exactly the document that a text of `Text` writes down |
| `QuerySpans.SpanReadsIff` | plane/application/graphql/cost/parser.go:514-539 | a text is skipped as one span in front of x if and only if it is bracketed ordinary characters, complete strings and nested groups: this is what span-safe means |
| `QuerySpans.QuietCommentIsSkipped` | plane/application/graphql/cost/parser.go:514-539 | a comment without the brackets or a quote never changes where a span ends |
| `QuerySpans.CommentClosesSpan` | plane/application/graphql/cost/parser.go:520-529 | a closing bracket inside a comment ends the span |
| `QuerySpans.QuoteOpensString` | plane/application/graphql/cost/parser.go:530-534 | a lone quote inside a comment makes the skip fail |
| `QuerySpans.ValueCutByComment` | plane/application/graphql/cost/parser.go:406-448 | a list value is cut inside its comment |
| `QuerySpans.CommentedListIsRejected` | plane/application/graphql/cost/parser.go:376-404 | a legal query with such a list is rejected |
| `QuerySpans.CommentedVariablesAreRejected` | plane/application/graphql/cost/parser.go:216-225 | so is one with a quote in a comment among its variable definitions |
| `QueryAccepts.ValueOf` | plane/application/graphql/cost/parser.go:406-539 | whatever is read as a value is a value of the grammar `Value` with that text and meaning |
| `QueryAccepts.LexicalClasses` | plane/application/graphql/cost/parser.go:171-200 | exactly the characters of names and the ignored ones |
| `QueryAccepts.ArgsOf` | plane/application/graphql/cost/parser.go:376-404 | the same for argument lists |
| `QueryAccepts.DirectivesOf` | plane/application/graphql/cost/parser.go:226-240 | the same for directive lists |
| `QueryAccepts.SelsOf` | plane/application/graphql/cost/parser.go:269-327 | the same for selections |
| `QueryAccepts.OperationOf` | plane/application/graphql/cost/parser.go:216-245 | the same for operations |
| `QueryAccepts.FragmentOf` | plane/application/graphql/cost/parser.go:247-267 | the same for fragment definitions |
| `QueryAccepts.AcceptedIsText` | plane/application/graphql/cost/parser.go:100-147 | every accepted source is the text of some document of `Text` with the meaning it is given |
| `QueryAccepts.ParsesIff` | plane/application/graphql/cost/parser.go:100-147 | a source parses to a document if and only if some document of `Text` has that text and that meaning |
| `QueryRejects.ShorthandStandsAlone` | plane/application/graphql/cost/parser.go:106-117 | nothing but ignored tokens may follow a shorthand operation |
| `QueryRejects.ShorthandWithFragment` | plane/application/graphql/cost/parser.go:106-117 | so one that uses a fragment is rejected |
| `QueryRejects.PowerIsRejected` | plane/application/graphql/cost/parser.go:385-402 | an argument that is a number with an exponent makes its list fail, because the exponent is read as the next argument's name |
| `QueryRejects.PowerArgumentIsRejected` | plane/application/graphql/cost/parser.go:376-404 | the legal query `{a(x: 1e5)}` is rejected |
| `QueryRejects.FragmentDirective` | plane/application/graphql/cost/parser.go:257-261 | a fragment definition with a directive is rejected |
| `QueryRejects.DirectedFragmentIsRejected` | plane/application/graphql/cost/parser.go:247-267 | so is the legal document `fragment F on T @d {a} query {...F}` |
| `QueryRejects.KeywordIsRejected` | plane/application/graphql/cost/parser.go:119-140 | a document that opens with any word but query, mutation and fragment is rejected |
| `QueryRejects.SubscriptionIsRejected` | plane/application/graphql/cost/parser.go:128-129 | subscriptions in particular |
| `QueryRejects.SpreadStandsAlone` | plane/application/graphql/cost/parser.go:284-320 | a spread with a directive and an inline fragment without a type are rejected |
| `CostWalk.Multiplier` | plane/application/graphql/cost/analyzer.go:232-260 | the loop computes the page size, at least one and at most the larger of cap and default |
| `CostWalk.PageSizeOverCapIff` | plane/application/graphql/cost/analyzer.go:238-250 | it exceeds the cap exactly for a missing or non-positive argument under a default above the cap |
| `CostWalk.FailurePath` | plane/application/graphql/cost/analyzer.go:196-230 | a failing walk names the end of a chain of spreads that is undefined or repeats |
| `CostWalk.SuccessPaths` | plane/application/graphql/cost/analyzer.go:196-230 | after a successful walk every chain of spreads is defined and repetition-free |
| `CostWalk.WalkFailsIff` | plane/application/graphql/cost/analyzer.go:196-230 | the walk fails if and only if a spread reachable outside introspection fields is undefined or on a cycle |
| `CostWalk.InlinedOpen` | plane/application/graphql/cost/analyzer.go:214-226 | where the walk succeeds, inlining does not depend on the visited set |
| `CostWalk.SpreadIsItsFragment` | plane/application/graphql/cost/analyzer.go:214-226 | a spread inlines to the body of its fragment in the fragment's own type |
| `CostWalk.Walker.Walk` | plane/application/graphql/cost/analyzer.go:196-230 | terminates on cyclic documents; fails with the first error, or restores visited and adds exactly the cost and depth of the fully inlined selections |
| `CostWalk.Walker.WalkField` | plane/application/graphql/cost/analyzer.go:232-260 | the same for one field with its weight and multiplier |
| `CostAnalyzer.PickOperation` | plane/application/graphql/cost/analyzer.go:173-194 | the only operation, or the one named; unknown or ambiguous otherwise |
| `CostAccount.BillAgrees` | plane/application/graphql/cost/analyzer.go:196-260 | the inlined operation's complexity is the total price of its field occurrences, each priced by the type its path leads to, and its depth the deepest nesting among them |
| `CostQueries.ArgumentCounts` | plane/application/graphql/cost/analyzer.go:325-349 | an argument counts as the integer it is written as, a 64-bit literal or a variable's value, and as zero otherwise |
| `CostAnalyzer.Measure` | plane/application/graphql/cost/analyzer.go:151-164 | the walk fails with the first error or yields the cost of the operation, stated on its field occurrences |
| `CostAnalyzer.Analyze` | plane/application/graphql/cost/analyzer.go:142-171 | the verdict on a source text: parse error, bad operation, bad fragment, too deep, too complex, or accepted; its cost is the total over the field occurrences from the root type of the operation, rounded up after a discount, and their deepest nesting |
| `CostQueries.MutationCosts` | plane/application/graphql/cost/analyzer.go:76-102 | `mutation { createPullRequest }` costs ten under the default weights |
| `CostQueries.ConnectionCosts` | plane/application/graphql/cost/analyzer.go:76-102 | `{ repository { pullRequests(first: 100) { nodes } } }` costs 202 and is three deep |
| `ObjectLiteral.ToJson` | plane/application/graphql/resolvers/executor.go:179-254 | computes the token-wise translation and never slices out of range on a parsed raw value |
| `ObjectLiteral.TranslateInRange` | plane/application/graphql/resolvers/executor.go:199-213 | a text that does not end in a backslash never overruns |
| `ObjectLiteral.LiteralConverts` | plane/application/graphql/resolvers/executor.go:176-254 | every well-formed literal converts token by token: keys and enum words quoted, true, false and null kept, strings and numbers copied |
| `JsonText.ScanAgrees` | plane/application/graphql/resolvers/executor.go:179-254 | JSON reads in the converted text exactly the tokens scanned from the literal; where the conversion fails the scan ends in no token |
| `JsonText.ConvertsIffScanned` | plane/application/graphql/resolvers/executor.go:163-173 | any text at all converts to JSON if and only if its own tokens are those of one JSON value |
| `LiteralJson.BlockStuck` | plane/application/graphql/resolvers/executor.go:199-213 | a block string is read as an empty string with another string after it, so never as a value |
| `LiteralJson.PowerStuck` | plane/application/graphql/resolvers/executor.go:214-220 | a number with an exponent is read as a number with a word after it |
| `LiteralJson.LiteralRecognised` | plane/application/graphql/resolvers/executor.go:182-252 | a JSON recogniser reads exactly past a literal if and only if it is sound: one comma between neighbours, none elsewhere, no comment, block string, exponent or variable, JSON scalars, reserved words as keys only with their colon in line |
| `LiteralJson.ConvertsToJsonIff` | plane/application/graphql/resolvers/executor.go:163-254 | the text of a literal converts without an error to one JSON value if and only if the literal is sound |
| `LiteralJson.UnseparatedIsNotJson` | plane/application/graphql/resolvers/executor.go:188-195 | `{a: 1 b: 2}` is legal, its conversion is given, and that is not JSON |
| `LiteralJson.ScientificIsNotJson` | plane/application/graphql/resolvers/executor.go:214-220 | nor is that of `{a: 1e5}` |
| `ObjectLiteral.ConvertParsed` | plane/application/graphql/resolvers/executor.go:141-174 | converting any argument of any field of any operation or fragment of any parsed query stays in range |
| `ObjectLiteral.PathsLeadToFields` | plane/application/graphql/resolvers/executor.go:141-174 | the fields that covers are all that stand in the selections, at any depth |
| `TokenBucket.MemoryLimiter.Take` | plane/data/ratelimit/limiter_memory.go:71-99 | grants exactly when the refilled, capped level covers the charge, and stores the level that remains |
| `TokenBucket.TokensStayInRange` | plane/data/ratelimit/limiter_memory.go:71-99 | over every run with a non-decreasing clock tokens stay in [0, capacity] |
| `TokenBucket.GrantsAreFunded` | plane/data/ratelimit/limiter_memory.go:71-99 | grants of a run never exceed the starting level plus the refill |
| `TokenBucket.WindowBound` | plane/data/ratelimit/limiter_memory.go:71-99 | any window of any run grants at most one capacity plus what is supplied meanwhile |
| `TokenBucket.RateWindowBound` | plane/data/ratelimit/limiter_memory.go:71-99 | at a constant rate: capacity plus rate times window length |
| `TokenBucket.NegativeTakeOverfills` | plane/data/ratelimit/limiter_memory.go:86-98 | any bucket at any time ends above its capacity if and only if a granted take puts in more than there is room for, which only a negative one does |
| `TokenBucket.Charge` | plane/application/graphql/middleware/cost_meter.go:59-76 | free without a capacity, otherwise paid exactly when the bucket covers at least one token's charge, with the advice on denial |
| `TokenBucket.AcceptedPaysIff` | plane/application/graphql/router.go:243-262 | an accepted query pays its complexity, at least one token, if the bucket holds it, and nothing otherwise |
| `TokenBucket.RejectedPaysIff` | plane/application/graphql/router.go:221-227 | a rejected query pays its whole charge, at least twenty tokens, if and only if the bucket holds it, and nothing otherwise |
| `TokenBucket.RejectedIsFreeIff` | plane/application/graphql/middleware/cost_meter.go:100-113 | it is free in every state of the bucket if and only if its charge is above capacity |
| `TokenBucket.RejectedIsFreeByDefault` | plane/application/graphql/cost/analyzer.go:27-35 | with the default buckets, from a complexity of 50010 for agents and 10010 for people |
| `TokenBucket.AdviceCovers` | plane/application/graphql/middleware/cost_meter.go:89-98 | the advised seconds refill at least the charge |
| `TokenBucket.AdviceIsLeast` | plane/application/graphql/middleware/cost_meter.go:89-98 | a whole number of seconds refills the charge if and only if it is at least the advice |
| `TokenBucket.RetryIsGrantedIff` | plane/application/graphql/middleware/cost_meter.go:59-98 | a denied charge waiting out the advice is granted if and only if the bucket refills and can hold it |
| `TokenBucket.AcceptedFitsBucket` | cmd/graphql-api/main.go:58-61 | with default limits and buckets every accepted query's charge fits its bucket |
| `CanonicalJson.SortedKeysAscend` | plane/application/policy/audit.go:100-104 | keys are emitted in strictly ascending order |
| `CanonicalJson.PutInjective` | plane/application/policy/audit.go:97-144 | equal canonical texts followed by delimiters come from equal values and equal rests |
| `CanonicalJson.CanonicalInjective` | plane/application/policy/audit.go:97-144 | distinct values have distinct canonical texts |
| `CanonicalText.ArrayReads` | plane/application/policy/audit.go:125-139 | the text of an array: its elements' texts joined by commas in brackets |
| `CanonicalText.ObjectReads` | plane/application/policy/audit.go:99-124 | the text of an object: its own keys ascending, each with a colon and its value, joined by commas in braces |
| `CanonicalJson.SortKeys` | plane/application/policy/audit.go:100-104 | sorting the keys gives the ascending list |
| `CanonicalJson.Canonicalize` | plane/application/policy/audit.go:97-144 | the buffer-growing emitter produces the canonical text |
| `CanonicalJson.CanonicalizeArray` | plane/application/policy/audit.go:125-139 | for arrays |
| `CanonicalJson.CanonicalizeObject` | plane/application/policy/audit.go:99-124 | for objects |
| `AuditChain.TimestampInjective` | plane/application/policy/audit.go:170-174 | eight bytes determine the int64 timestamp |
| `AuditChain.PreimageIs` | plane/application/policy/audit.go:147-179 | the hashed bytes in order: previous hash, canonical payload or null, actor kind, separator, event kind, separator, actor or zeros, and the time in eight big-endian bytes |
| `AuditChain.PreimageInjective` | plane/application/policy/audit.go:151-179 | for valid kinds the hashed bytes determine the predecessor hash and every hashed field, up to canonical payload and nil or zero actor |
| `AuditChain.OpenKindsAreAmbiguous` | plane/application/policy/audit.go:157-162 | with an actor kind that starts with a digit after a number payload two different rows hash the same bytes |
| `AuditChain.LowBytesOf` | plane/application/policy/audit.go:170-174 | the shifting loop writes the big-endian two's complement |
| `AuditChain.ComputeRowHash` | plane/application/policy/audit.go:84-179 | hashes exactly the pre-image; fails exactly on a payload that is present and not JSON |
| `AuditChain.AppendRow` | plane/application/policy/audit.go:209-220 | stamps predecessor hash and row hash, and the clock in place of a zero creation time |
| `AuditChain.VerifyChain` | plane/application/policy/audit.go:187-203 | -1 exactly on an accepted chain, otherwise the first row that breaks |
| `AuditChain.AppendKeepsAccepted` | plane/application/policy/audit.go:209-220 | appending a stamped row keeps a chain accepted |
| `AuditChain.ChainsAgree` | plane/application/policy/audit.go:181-203 | two accepted chains of equal length with the same last hash agree on every hashed field, or two of their rows collide; with unequal lengths also unless a row hashes to the genesis value |
| `AuditChain.UncoveredFields` | plane/application/policy/audit.go:147-179 | rewriting ids, policy ids and plan ids never changes the verdict |
| `ApprovalPolicy.ValidateIff` | plane/application/policy/validate.go:60-159 | validation accepts exactly the well-formed policies, whatever order the groups come in |
| `ApprovalPolicy.ValidateBlames` | plane/application/policy/validate.go:60-159 | the reported code is true of the policy |
| `ApprovalPolicy.FirstMatchIsFirst` | plane/application/policy/engine.go:98-123 | the chosen rule fires and no earlier one does; none fires when none is chosen |
| `ApprovalPolicy.FiresIff` | plane/application/policy/predicates.go:18-80 | the five kinds of rule spelled out on actions and filter: field value or no filter, ref matched or under the named directory, number of actions, agent proposer |
| `ApprovalPolicy.FirstMatchGates` | plane/application/policy/engine.go:98-123 | the chosen rule is the first that applies, and none is chosen if and only if none applies |
| `ApprovalPolicy.MergeRuleGates` | plane/application/policy/predicates.go:40-55 | a merge rule for one branch gates exactly the merges into it |
| `ApprovalPolicy.CatchAllPreempts` | plane/application/policy/predicates.go:9-37 | for agents nothing after an agent_default rule is ever chosen |
| `ApprovalPlan.VoteHonest` | plane/application/policy/memservice.go:167-243 | a vote changes only a pending plan, and its audit row is terminal exactly when the plan leaves pending, naming the status |
| `ApprovalPlan.ElapseHonest` | plane/application/policy/memservice.go:246-297 | the same for an escalation |
| `ApprovalPlan.VoteKeeps` | plane/application/policy/memservice.go:167-243 | votes keep the plan invariant: rung in range, voters are members, quorums short while pending and exact when approved, one rejection exactly when rejected |
| `ApprovalPlan.ElapseKeeps` | plane/application/policy/memservice.go:246-297 | escalations keep it; falling back never leaves the ladder |
| `ApprovalPlan.UnattendedIsFate` | plane/application/policy/memservice.go:260-297 | closed form after n escalations: denied after the first auto_deny rung or the end of the ladder, or alternating below a fall_back rung |
| `ApprovalPlan.PendingForeverIff` | plane/application/policy/memservice.go:260-297 | an unattended plan never ends if and only if its first stop falls back |
| `ApprovalQuorum.QuorumReached` | plane/application/policy/memservice.go:203-242 | a pending rung passes after exactly as many further distinct members as it lacks, in any order |
| `ApprovalQuorum.ApprovalNeedsDistinctMembers` | plane/application/policy/validate.go:86-91 | an approved rung has at least the required number of distinct members |
| `ApprovalQuorum.CanPassIff` | plane/application/policy/memservice.go:192-242 | on any pending rung some sequence of votes approves the plan if and only if the required count is at most the number of distinct members |
| `ApprovalQuorum.ValidatedButStuck` | plane/application/policy/validate.go:86-91 | a validated policy whose group requires two of one person listed twice: no votes pass a plan on its rung |
| `ApprovalReach.CanBeApprovedIff` | plane/application/policy/memservice.go:167-297 | some future of votes and escalations approves a pending plan if and only if a rung it comes to wait on when left alone has as many distinct members as it requires |
| `ApprovalReach.FreshVisitsIff` | plane/application/policy/memservice.go:260-297 | a plan on its first rung comes to wait on exactly the rungs up to the first that does not notify the next |
| `ApprovalReach.FreshCanBeApprovedIff` | plane/application/policy/memservice.go:167-297 | so a new plan can be approved if and only if one of those has enough distinct members |
| `ApprovalReach.ApprovedInRun` | plane/application/policy/memservice.go:54-342 | in every run of the service an approved plan had its quorum in distinct people |
| `ApprovalReach.TwiceListedNeverApproves` | plane/application/policy/validate.go:86-91 | no run ever approves a plan under the policy that lists one person twice |
| `ApprovalService.SubmitErrorIff` | plane/application/policy/memservice.go:113-132 | a submission is refused exactly for a bad proposer or a missing policy |
| `ApprovalService.AppendKeepsChains` | plane/application/policy/memservice.go:322-342 | an append keeps every chain accepted with valid kinds |
| `ApprovalService.StepKeeps` | plane/application/policy/memservice.go:54-297 | every call keeps policies well formed, plans invariant and chains accepted |
| `ApprovalService.RunKeeps` | plane/application/policy/memservice.go:54-342 | after every run from empty; in particular every chain passes verification |
| `ApprovalService.OneTerminalRow` | plane/application/policy/memservice.go:79-297 | in every run a plan id recorded once has no terminal row while pending and exactly one, naming its status, afterwards |
| `ApprovalService.DecidedIsFinal` | plane/application/policy/memservice.go:167-297 | a decided plan never changes again unless its id is submitted anew |
| `ApprovalAnswers.VoteMatches` | plane/application/policy/memservice.go:167-243 | what the trail says of a ballot: expired by the system, rejected, approved or submitted by the voter with rung and count, or nothing |
| `ApprovalAnswers.ClimbMatches` | plane/application/policy/memservice.go:246-297 | what it says of an escalation: the rungs left and entered, or the denial, by the system |
| `ApprovalAnswers.AppliedNotes` | plane/application/policy/memservice.go:322-342 | exactly a step that changes a plan adds a row: to its policy's chain, with the next number, its plan, kind, actor, payload and time |
| `ApprovalMemory.MemService.constructor` | plane/application/policy/memservice.go:42-52 | starts empty and valid |
| `ApprovalMemory.MemService.RegisterPolicy` | plane/application/policy/memservice.go:54-63 | takes the register step; an error is true of the policy and leaves the service alone |
| `ApprovalMemory.MemService.AppendAudit` | plane/application/policy/memservice.go:322-342 | extends the policy's chain by the stamped row, or nothing if the payload is not JSON |
| `ApprovalMemory.MemService.RecordSubmission` | plane/application/policy/memservice.go:79-110 | looks up the policy, stores the plan with its ladder and expiry and writes its row; without a policy it changes nothing |
| `ApprovalMemory.MemService.Evaluate` | plane/application/policy/memservice.go:140-160 | the inlined rule walk decides as the first-match-wins reference does |
| `ApprovalMemory.MemService.SubmitPlan` | plane/application/policy/memservice.go:113-164 | takes the submit step; auto-approves if and only if no rule of the policy applies, else waits under the first that does, with its ladder and its expiry in nanoseconds; one row says so in the proposer's name |
| `ApprovalMemory.MemService.RecordDecision` | plane/application/policy/memservice.go:167-243 | takes the vote step; every refusal and every counted vote, with the counts returned, the plan left behind and the row written |
| `ApprovalDeadline.StoredPlan` | plane/application/policy/memservice.go:79-110 | in every run a stored plan has the policy, the ladder and the deadline its last submission gave it |
| `ApprovalDeadline.VoteTooLateIff` | plane/application/policy/memservice.go:177-183 | over every run: a vote on a pending plan is answered as expired and leaves it expired if and only if it comes later than the submission plus the rule's expiry |
| `ApprovalDeadline.VotesWereInTime` | plane/application/policy/memservice.go:167-243 | a plan that ends approved or rejected took every vote before that |
| `ApprovalMemory.MemService.EscalatePlan` | plane/application/policy/memservice.go:246-297 | takes the escalation step; every refusal, denial, climb and fall, with the standing returned, the plan left behind and the row written |
| `ApprovalMemory.MemService.GetPlanStatus` | plane/application/policy/memservice.go:300-308 | the stored status, or not found |
| `ApprovalActivity.OthersFollow` | plane/workflow/approval/activity.go:112-162 | nobody else moves the activity's rung or ladder, or reopens a decided plan |
| `ApprovalActivity.EscalateFrom` | plane/workflow/approval/activity.go:138-153 | from the activity's rung, escalation is refused exactly when the plan is decided, and otherwise keeps the two rungs equal |
| `ApprovalActivity.Poll` | plane/workflow/approval/activity.go:112-162 | at every loop head the rungs agree or the plan is decided; the heads visited follow from the schedule, and the loop ends in a refused escalation if and only if its last turn was raced |
| `ApprovalActivity.EscalatesWhenDue` | plane/workflow/approval/activity.go:131-161 | in every walk a turn that goes on escalates exactly when more than the rung's SLA and the jitter have passed since the activity entered it |
| `ApprovalActivity.TakeTurn` | plane/workflow/approval/activity.go:114-161 | one turn: its stop reason or the next head; refused exactly when the poll saw pending, the deadline had passed and the plan was decided when the call arrived |
| `ApprovalActivity.Execute` | plane/workflow/approval/activity.go:83-163 | under any interleaving the ladder is never exhausted undecided and polling never fails; the escalation fails if and only if the last turn was raced, and then as already decided |
| `ApprovalActivity.RacingRejection` | plane/workflow/approval/activity.go:138-146 | any rejection landing in that window makes the escalation fail |
| `ApprovalActivity.RacedExecution` | plane/workflow/approval/activity.go:83-163 | a whole execution, from an empty service, that ends in a refused escalation |
| `AgentsPolicy.Itoa64` | plane/application/agentsmd/policy.go:63-85 | the 20-byte buffer is never overrun and holds the decimal; the least int64 yields a lone sign |
| `AgentsPolicy.ItoaInjective` | plane/application/agentsmd/policy.go:63-85 | injective on all int64 |
| `AgentsPolicy.KeyIff` | plane/application/agentsmd/policy.go:56-61 | keys agree if and only if the sizes do and so do name and globs joined by bars |
| `AgentsPolicy.KeySeparates` | plane/application/agentsmd/policy.go:56-61 | so keys separate predicates with bar-free names as soon as branch globs or path globs are bar-free |
| `AgentsPolicy.KeyInjective` | plane/application/agentsmd/policy.go:56-61 | injective on parsed predicates |
| `AgentsPolicy.KeyCollides` | plane/application/agentsmd/policy.go:56-61 | not injective off them |
| `AgentsPolicy.Merge` | plane/application/agentsmd/merge.go:14-40 | organisation first, then unseen repository predicates, by key; empty exactly when nothing is left |
| `AgentsPolicy.FreshKeepsAll` | plane/application/agentsmd/merge.go:14-40 | deduplicating parsed predicates by key loses none |
| `AgentsPolicy.FreshDistinct` | plane/application/agentsmd/merge.go:14-40 | and keeps no key twice |
| `AgentsParser.ParseSize` | plane/application/agentsmd/parser.go:313-337 | digits times scale with int64 wrap-around, or none |
| `AgentsParser.SizeIsExact` | plane/application/agentsmd/parser.go:313-337 | sizes below 2^63 are read exactly |
| `AgentsParser.ParsePredicateItem` | plane/application/agentsmd/parser.go:272-301 | the item's predicate; a known name fills only its own selector |
| `AgentsParser.ParseNeverBlock` | plane/application/agentsmd/parser.go:146-244 | the scan's predicates, deduplicated by key |
| `AgentsParser.ParsedPolicy` | plane/application/agentsmd/parser.go:143-244 | exactly the known predicates on bullet lines whose nearest heading says Never, all of parsed shape, none twice |
| `AgentsHeadings.LostIff` | plane/application/agentsmd/parser.go:143-194 | a line documented to be in a Never section is passed over if and only if the nearest heading above it is a subheading of that section |
| `AgentsHeadings.AsDocumentedIff` | plane/application/agentsmd/parser.go:143-194 | a text is read as documented if and only if no Never section has subheadings |
| `AgentsHeadings.SubheadingHidesRule` | plane/application/agentsmd/parser.go:166-190 | a rule under such a subheading is not read |
| `AgentsEvaluate.FirstPathIff` | plane/application/agentsmd/evaluate.go:126-139 | a path rule matches exactly when some changed path does |
| `AgentsEvaluate.MatchedIff` | plane/application/agentsmd/evaluate.go:89-221 | a rule matches an update for a reason if and only if the update breaks it: the five rules spelled out on the update and the resolver's answers |
| `AgentsEvaluate.FailsIff` | plane/application/agentsmd/evaluate.go:89-221 | matching fails if and only if a question the rule has to ask is not answered |
| `AgentsEvaluate.Evaluate` | plane/application/agentsmd/evaluate.go:69-86 | fails exactly when some predicate and update fail; otherwise all violations in policy then update order |
| `AgentsEvaluate.MergePreserves` | plane/application/agentsmd/merge.go:14-40 | for parsed policies the merged violations are the union of both, and merging fails to evaluate exactly when one does |
| `AgentsEvaluate.EvaluateMerged` | plane/application/agentsmd/evaluate.go:69-86 | the same of the code: merge, then evaluate |
| `AgentsEvaluate.Enforce` | plane/application/agentsmd/evaluate.go:61-221 | from two documents to the verdict: fails if and only if some declared rule has to ask something that is not answered, and otherwise reports exactly the breaches of declared rules |
| `AgentsRules.BranchRuleReads` | plane/application/agentsmd/parser.go:272-301 | what a branch rule says as written, with or without quotes |
| `AgentsRules.PathRuleReads` | plane/application/agentsmd/parser.go:272-301 | what a path rule says |
| `AgentsRules.SizeRuleReads` | plane/application/agentsmd/parser.go:272-337 | what a size rule says, with its unit |
| `AgentsRules.SectionDeclares` | plane/application/agentsmd/parser.go:143-244 | every rule below a Never heading is declared |
| `AgentsRules.ForcePushIsReported` | plane/application/agentsmd/evaluate.go:106-124 | a written force-push rule reports an update that is not a fast-forward |
| `AgentsLines.TrimIff` | plane/application/agentsmd/parser.go:158-160 | trimming takes the white space of Unicode off both ends and nothing else |
| `AgentsLines.HeadingIff` | plane/application/agentsmd/parser.go:163 | a heading is a line whose first character that is not white space is a hash |
| `AgentsLines.NeverIff` | plane/application/agentsmd/parser.go:172-173 | a heading says Never if and only if its hashes are followed by that word in any mix of cases, with white space around it |
| `AgentsLines.SizeIff` | plane/application/agentsmd/parser.go:313-337 | a size is digits and perhaps a unit, and counts modulo 2^64 |
| `AgentsLines.RuleIff` | plane/application/agentsmd/parser.go:196-301 | a line is a rule if and only if it is a dash, a space and one of the five names, a colon and its selector, with or without quotes |
| `AgentsLines.DeclaredIff` | plane/application/agentsmd/parser.go:146-244 | a document declares a rule if and only if some line says so and the nearest heading above it says Never |
| `AgentsEvaluate.HandMadeRuleIsLost` | plane/application/agentsmd/merge.go:30-37 | off the parsed shape merging can drop a rule that would have matched |
| `BillingEvents.NaturalKeyIff` | plane/application/billing/postgres_service.go:156-159 | natural keys agree exactly on the period and the joined name and hint |
| `BillingEvents.NaturalKeySeparates` | plane/application/billing/postgres_service.go:156-159 | bar-free hints keep distinct keys apart |
| `BillingEvents.NaturalKeyCollides` | plane/application/billing/postgres_service.go:156-159 | a bar in the hint makes two keys one |
| `BillingEvents.RunKeeps` | plane/application/billing/postgres_service.go:37-197 | over every run: written events are live or expired, each recorded partition has exactly one archived event ever, each DEK or CI aggregate at most one live row |
| `BillingEvents.RepeatsAreExpiries` | plane/data/outbox/expirer.go:85-105 | a DEK or CI event has been written as often as its rows expired, plus one if it is live |
| `BillingEvents.RetryAfterExpiryRepeats` | plane/application/billing/postgres_service.go:167-197 | drain, expire, retry writes the same event again |
| `BillingEvents.PostgresService.RecordPartitionArchived` | plane/application/billing/postgres_service.go:37-86 | writes exactly once per natural key; Created is true exactly for the call that wrote, unless its reply was lost; an incomplete event is refused |
| `BillingEvents.PostgresService.RecordCIJobCompleted` | plane/application/billing/postgres_service.go:116-146 | writes exactly when no live row carries the aggregate, and says so; an incomplete event is refused |
| `BillingEvents.PostgresService.RecordDEKDestroyed` | plane/application/billing/postgres_service.go:167-197 | the same for DEK events; an incomplete event is refused |
| `BillingEvents.PostgresService.HasOutboxEvent` | plane/application/billing/postgres_service.go:175-182 | finds the event exactly when a live row carries it |
| `BillingEvents.PostgresService.ExpireRow` | plane/data/outbox/expirer.go:87-105 | removes a row only once it was processed longer ago than the TTL |
| `DekDestruction.HintRoundTrip` | plane/workflow/billing/destroy_dek_activity.go:157-171 | every hint of the emitted form reads back as its version |
| `DekDestruction.VersionIff` | plane/workflow/billing/destroy_dek_activity.go:157-171 | exactly the hints that end in `-v` and a number from one name a version, and it is that number |
| `DekDestruction.AttemptTrims` | plane/workflow/billing/destroy_dek_activity.go:102-153 | an attempt moves the bound to just above its version or not at all, keeps it at or below both minimums, and succeeds only if the version is gone |
| `DekDestruction.RetriedTrims` | plane/workflow/billing/destroy_dek_activity.go:102-153 | so do retries, with writes that land unreported |
| `DekDestruction.RetriedIs` | plane/workflow/billing/destroy_dek_activity.go:102-153 | the key after all retries, from the fates alone: trimmed as soon as one attempt lands, configured as soon as one write does |
| `DekDestruction.MinimumsFallIff` | plane/workflow/billing/destroy_dek_activity.go:127-142 | the configured minimums fall if and only if they were beyond a version not yet trimmed and a configuration lands |
| `DekDestruction.MinimumsFall` | plane/workflow/billing/destroy_dek_activity.go:53-57 | a key whose minimums fall |
| `DekDestruction.TransitKey.Execute` | plane/workflow/billing/destroy_dek_activity.go:102-153 | one execution, step by step, is an attempt |
| `DekDestruction.TransitKey.ExecuteRetried` | plane/workflow/billing/dek_destruction_workflow.go:146-153 | the activity under its retry policy stops at the first success |
| `DekDestruction.DestroyEligible` | plane/workflow/billing/dek_destruction_workflow.go:57-180 | the run's counters, skips, events and key are those of processing the list in order |
| `DekDestruction.Handle` | plane/workflow/billing/dek_destruction_workflow.go:99-177 | one partition: behind a missing hint or a closed gate nothing changes but the skip with its reason; past both, the destruction, the event and theirs |
| `DekDestruction.ProcessedCounts` | plane/workflow/billing/dek_destruction_workflow.go:99-177 | a partition is destroyed or skipped, or both after an emit error |
| `DekDestruction.RunKeeps` | plane/workflow/billing/dek_destruction_workflow.go:95-180 | over every run the bound only grows, stays at or below both minimums, exceeds every emitted version, and destroyed plus skipped is scanned plus emit errors |
| `DekDestruction.BoundedByPassing` | plane/workflow/billing/dek_destruction_workflow.go:99-153 | the bound never passes a limit above its start and above every version past both gates |
| `DekDestruction.SurvivesIff` | plane/workflow/billing/destroy_dek_activity.go:144-150 | a version survives a run if and only if it is at or above the old bound and above the version of every partition that passes both gates with a trim that lands |
| `DekDestruction.HoldDoesNotProtect` | plane/workflow/billing/dek_destruction_workflow.go:107-124 | a held partition loses its key in every run in which a trim of the same or a later version lands |
| `DekDestruction.SuccessDestroysBelow` | plane/workflow/billing/destroy_dek_activity.go:102-153 | whatever reports success leaves every version up to its own destroyed |

## Left out

- HTTP, gRPC, MCP and REST handlers, error mapping, command mains, metrics and tracing: plumbing with one fact per branch.
- PostgreSQL, Redis, Kafka, S3, Glue, Vault and Gitaly clients: the models take what the calls return; isolation anomalies between concurrent transactions and Vault writes that arrive late are not modelled.
- `encoding/json`, `yaml` and `path.Match`: scalar texts, parsing of payloads and glob matching are parameters; canonical JSON is proved over them.
- Parquet writing and the pipes between the three export stages: the encrypt loop runs over a plaintext sequence.
- Float rounding: tokens, refill and weights are exact; counters and byte totals do not overflow.
- Parser error messages and offsets, a byte order mark, comments ended by a carriage return alone, and escaped triple quotes in block strings.
- ArchiveStream.RestoreArchive: promises the whole plaintext only for an object that does not change between its two downloads, which the code does not check.
- QueryRender.DocumentReads: the grammar `Text` is the parser's, not GraphQL's; `QueryAccepts` shows that nothing else is accepted and `QueryRejects` and `QuerySpans` which legal queries are not.
- Outbox.Pipeline.PublishBatch: the producer keeps its interface's promise and reports success only when every event is out. The mock breaks it when it is set to stop early without an error (plane/data/outbox/producer_mock.go:43-51), and then rows are marked that were never published.
- Executor resolvers and `expandFragment`: one level of field selection without a harder law.
- Store selection by `hasLiveRead`, which does not follow named spreads, so no law about inlining holds.
- `MemoryLimiter.Inspect`: reads a bucket without changing it.
- The metering cache under concurrent writers: a read-modify-write that may lose updates by design; nor its key format and expiry.
- Policies are values: a caller that mutates a registered policy through its pointer is not modelled; nor are nil policies and plans.
- `ComputePlanHash`, and durations that overflow int64.
- AGENTS.md front matter and diagnostics: which predicates are kept is modelled, not the messages about the others.
- Outbox rows of billing expire one at a time; the batch order of expiry is modelled in `Outbox`.
