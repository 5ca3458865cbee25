# Verified model of TAIL

TAIL (pig-tail) is an authenticating proxy and attestation endpoint in front of one inference backend.
This project models the parts of it whose correctness is not obvious from reading them, and proves what
they promise. `dafny verify dfyconfig.toml` checks everything.

**The completion-usage observer** (`internal/infra/openai/completion_usage.go`) watches a response body go
by in arbitrary chunks and decides, in fixed memory, whether it carried exactly one trustworthy usage record.

| file | what it holds |
|---|---|
| `ByteStrings`, `UsageDecoding` | byte strings; what one JSON document says about usage |
| `EventStream` | the byte-at-a-time event-stream parser as a function on its state |
| `BatchSpec` | the meaning of a whole body: split on LF, group by blank lines, join `data:` fields, cut at `[DONE]`, count |
| `Refinement` | bytes to lines to events to verdict: the parser computes the batch meaning |
| `FramingLaws` | comments, CRLF, the size limits and resynchronisation after an oversized event |
| `Observation` | the observer as a machine over runs of calls, and the notifications a run owes |
| `Observer` | the observer object itself, updated in place, with callbacks that call back into it |
| `Guarantees` | what follows for every run |
| `Readers`, `Countdown`, `Body` | an arbitrary source, `bufio.Reader` in front of it, the length countdown, and the body wrapper with its three ways of sensing the end |

**The rest**: `Headers` (hop-by-hop filter), `Proxy` (admission and forwarding), `ProxyAccounting` (the
handler's counters as a concurrent step system), `Hex` and `Report` (what a quote binds), `Nvidia` (evidence
payloads), `StatusRecorder`, and the helpers `Common` (options, results, splitting and joining) and `Text` (strings).

How the pieces are modelled:

- JSON decoding is a parameter, the `Codec`: three total functions from bytes to the fields the decoder reads,
  or to an error. Every theorem holds for every codec. Everything the decoder does with those fields is modelled.
- A callback is the list of calls it makes back into the observer when it runs. The observer's methods accept
  nested calls, so their contracts are proved under re-entrancy; `log` records every callback in order.
- A source of bytes is a plan: how much to hand over at each read, when to make an empty read, and whether the
  final error comes with the last bytes or after them. Any reader that yields a given body and then a sticky
  error behaves like some plan.
- SHA-256 is an arbitrary function; clocks, randomness, files and the network are parameters.

Three places where the code does less than one might expect:

- A `Finish` called from inside a callback can return before everything owed has been delivered: one made by the
  usage callback when evidence, or a terminal notice not already sent at `[DONE]`, is still to come; one made by the
  evidence callback when such a terminal notice is. `Observation.EarlyReturn` says exactly when, the observer's
  invariant ties its `earlyReturn` flag (set from comparing the log with the complete one) to it,
  `Guarantees.NestedFinishReturnsEarly` exhibits it, and `Guarantees.SingleCallbackNeverEarly` excludes it for
  observers with one callback.
- Looking one byte ahead misses the end of a body if the source makes a hundred or more empty reads between its
  last byte and EOF, because the buffered reader gives up. The contract of `Body.CompletionUsageBody.Read` has the
  exact condition, and `Readers.PeekMissesLateEOF` one such source. The observation is then late, not lost.
- A timing metric whose nanosecond count lies above 2^63 - 1 and at most at 2^63 passes the overflow guard and does
  not fit a `time.Duration`; on amd64, the deployment target, it comes out as the least int64. An accepted usage can
  therefore have a negative duration: `UsageDecoding.Decode`, `Refinement.FeedTrustworthy`,
  `Guarantees.VerdictTrustworthy` and `Guarantees.ExactlyOnce` carry the exact condition, `UsageDecoding.UsageCanBeNegative` an instance. Token counts
  are never negative.

## Model

| member | source | states |
|---|---|---|
| `Refinement.StreamingRefinesBatch` | internal/infra/openai/completion_usage.go:228-400 | for every byte string and classifier, the incremental parser followed by end of input gives the verdict of the batch reading, and notices `[DONE]` exactly when the batch reading has one |
| `Refinement.FeedEvents` | internal/infra/openai/completion_usage.go:228-340 | from any event boundary, the parser's state after a whole text is the fold of the signals of that text's events |
| `Refinement.FoldSignalsMeaning` | internal/infra/openai/completion_usage.go:316-338 | candidate, invalid and terminal flags mean: first usage found, anything broken or more than one usage before `[DONE]`, a `[DONE]` seen |
| `Refinement.AccumulateLines` | internal/infra/openai/completion_usage.go:282-308 | while an event is being read, the buffer holds exactly its joined data, or the limit flag says it is oversized |
| `Refinement.FlushByParts` | internal/infra/openai/completion_usage.go:346-363 | the two-stage end-of-input code equals hearing two line feeds, in every bounded state |
| `EventStream.FeedAppend` | internal/infra/openai/completion_usage.go:228-250 | chunk boundaries leave no trace in the parser state |
| `EventStream.FeedDone` | internal/infra/openai/completion_usage.go:229-231 | bytes after `[DONE]` change nothing |
| `EventStream.FeedBounded` | internal/infra/openai/completion_usage.go:244-248 | line and event buffers never exceed 65536 bytes, and no data flag means no data |
| `EventStream.PayloadMeaning` | internal/infra/openai/completion_usage.go:289-293 | a data line is one that begins with `data:`, spelled out in bytes; its value is the rest less a single leading space |
| `EventStream.CandidateStays` | internal/infra/openai/completion_usage.go:320-325 | a first usage record is never replaced by a later one |
| `Refinement.FeedFound` | internal/infra/openai/completion_usage.go:315-325 | for any classifier, a candidate is always what it found in the data of the first reporting event of the text fed |
| `Refinement.FeedTrustworthy` | internal/infra/openai/completion_usage.go:315-325 | so a candidate's token counts are not negative, and each of its durations is negative exactly if that event's metric is above 2^63 - 1 nanoseconds |
| `BatchSpec.LinesRoundTrip` | internal/infra/openai/completion_usage.go:236-243 | joining the lines of a body with LF gives the body back, and no line contains LF |
| `BatchSpec.LinesUnique` | internal/infra/openai/completion_usage.go:236-243 | the split into LF-free lines is the only one |
| `BatchSpec.JudgeMeaning` | internal/infra/openai/completion_usage.go:386-398 | malformed exactly if something before `[DONE]` is broken or two usage records come before it; else available exactly with the one that does; else unavailable |
| `FramingLaws.LimitExact` | internal/infra/openai/completion_usage.go:244-248 | the limit flag is set just when some raw line of the event, or its full joined data, exceeds 65536 bytes |
| `FramingLaws.ClosedEvent` | internal/infra/openai/completion_usage.go:282-340 | an event closed by any blank line contributes its signal and leaves nothing behind |
| `FramingLaws.DataEvent` | internal/infra/openai/completion_usage.go:282-340 | values sent one per `data: ` line, spelled out in bytes, and closed by a blank line reach the classifier joined by LF, from any event boundary |
| `FramingLaws.OtherFieldsIgnored` | internal/infra/openai/completion_usage.go:285-291 | a line within the cap that is neither blank nor begins with `data:` changes no state, at any line boundary |
| `FramingLaws.OversizedResync` | internal/infra/openai/completion_usage.go:289-335 | an oversized event closed by any blank line, LF or CRLF, `[DONE]` inside it or not, makes the verdict malformed and is otherwise as if absent, whatever follows |
| `FramingLaws.CommentInsensitive` | internal/infra/openai/completion_usage.go:289-291 | a comment line within the cap, put in at any line boundary, changes no state |
| `FramingLaws.CRLFInsensitive` | internal/infra/openai/completion_usage.go:283-284 | turning LF into CRLF changes no state unless a line already ends in CR or sits exactly at the cap |
| `UsageDecoding.MillisecondsDuration` | internal/infra/openai/completion_usage.go:567-576 | accepted exactly for positive products up to 2^63; rounded up and positive exactly up to 2^63 - 1, negative beyond |
| `UsageDecoding.DurationCanOverflow` | internal/infra/openai/completion_usage.go:572-575 | the product 2^63 is accepted and comes out as the least int64 |
| `UsageDecoding.DecodeCompletions` | internal/infra/openai/completion_usage.go:492-535 | available exactly for a non-negative completion count beside choices that are empty just when streaming, with convertible metrics; unavailable exactly when there is no usage or a stream chunk still has choices |
| `UsageDecoding.DecodeResponsesEnvelope` | internal/infra/openai/completion_usage.go:554-564 | unavailable exactly without usage, available exactly for a non-negative output count, input tokens only if positive |
| `UsageDecoding.Decode` | internal/infra/openai/completion_usage.go:481-565 | no accepted usage has a negative token count, in either format; each duration is an int64, negative exactly if its metric is above 2^63 - 1 nanoseconds |
| `UsageDecoding.CompletionsDecoded` | internal/infra/openai/completion_usage.go:492-535 | available, with which figures, and unavailable, by the document's fields, on a stream and whole |
| `UsageDecoding.ResponsesEventDecoded` | internal/infra/openai/completion_usage.go:537-565 | a stream event counts exactly if it parsed, is response.completed and its response has usage with a non-negative output count |
| `UsageDecoding.ResponsesDocumentDecoded` | internal/infra/openai/completion_usage.go:549-564 | the same for a whole document |
| `UsageDecoding.MetricMeaning` | internal/infra/openai/completion_usage.go:519-533 | an absent timing is zero, a present one must be positive and at most 2^63 nanoseconds, and is rounded up or, past 2^63 - 1, the least int64 |
| `UsageDecoding.UsageCanBeNegative` | internal/infra/openai/completion_usage.go:519-535 | a document with a metric at 2^63 nanoseconds is accepted with a negative duration |
| `UsageDecoding.Classify` | internal/infra/openai/completion_usage.go:313-329 | an event is terminal exactly when its trimmed data is `[DONE]`, and contributes only if it mentions `"usage"` |
| `UsageDecoding.SignalKind` | internal/infra/openai/completion_usage.go:313-315 | trimmed data that spells `[DONE]` is terminal, and data without `"usage"` says nothing |
| `UsageDecoding.CompletionsSignal` | internal/infra/openai/completion_usage.go:315-332 | by the parsed chunk's fields alone: found, with which figures, exactly for final usage beside empty choices; broken exactly when it did not parse, lacks a completion count or choices, or is final with a bad count or timing; else silent |
| `UsageDecoding.ResponsesSignal` | internal/infra/openai/completion_usage.go:315-332 | by the parsed event's fields alone: found, with which figures, exactly for the completed event with a non-negative output count; broken exactly when it did not parse or that count is missing or negative; else silent |
| `ByteStrings.TrimSpaceMeaning` | internal/infra/openai/completion_usage.go:313 | trimming event data removes the white space at its ends, Unicode white space included, all of it and nothing else |
| `ByteStrings.SpaceMeaning` | internal/infra/openai/completion_usage.go:313 | white space at either end is recognised for the UTF-8 encoding of every White_Space code point |
| `ByteStrings.SpaceOnly` | internal/infra/openai/completion_usage.go:313 | and for nothing else |
| `ByteStrings.DropCRMeaning` | internal/infra/openai/completion_usage.go:283 | exactly one trailing CR goes |
| `ByteStrings.ContainsMeaning` | internal/infra/openai/completion_usage.go:315 | a needle is contained exactly if the text is something, the needle, and something |
| `Observer.GrownCapacity` | internal/infra/openai/completion_usage.go:263-274 | the doubling loop ends with room for what is required, within 4 MiB, at least doubled or at the clamp, and under twice what is required |
| `Observer.CompletionUsageObserver.constructor` | internal/infra/openai/completion_usage.go:144-157 | a fresh observer has heard nothing and owes nothing, whatever was preallocated |
| `Observer.CompletionUsageObserver.Observe` | internal/infra/openai/completion_usage.go:228-250 | called at any time, nested or not: a no-op after the end, else exactly the machine's step, with memory bounds, log and growth accounting kept |
| `Observer.CompletionUsageObserver.ObserveJSON` | internal/infra/openai/completion_usage.go:252-280 | the body is the concatenation or limited just past 4 MiB; capacity stays within 4 MiB and the append within capacity; bytes copied by growth stay within twice the bytes accepted |
| `Observer.CompletionUsageObserver.ProcessSSELine` | internal/infra/openai/completion_usage.go:282-308 | carries out one line of the parser, and finishes the observer only through a `[DONE]` callback that calls Finish |
| `Observer.CompletionUsageObserver.TakeData` | internal/infra/openai/completion_usage.go:294-307 | appends one data field, or marks the event oversized exactly when the joined data would pass the cap |
| `Observer.CompletionUsageObserver.SettleEvent` | internal/infra/openai/completion_usage.go:310-335 | folds the pending event's signal into the candidate and clears the event |
| `Observer.CompletionUsageObserver.FinishSSEEvent` | internal/infra/openai/completion_usage.go:310-340 | dispatches the pending event and notifies the terminal at `[DONE]` |
| `Observer.CompletionUsageObserver.Finish` | internal/infra/openai/completion_usage.go:342-380 | a no-op once finishing; otherwise closes the body and returns with every notification delivered |
| `Observer.CompletionUsageObserver.FinishStreaming` | internal/infra/openai/completion_usage.go:386-400 | delivers the verdict once and leaves what was parsed alone |
| `Observer.CompletionUsageObserver.Announce` | internal/infra/openai/completion_usage.go:364-400 | usage, evidence and a terminal still owed, in that order, complete the log |
| `Observer.CompletionUsageObserver.Emit` | internal/infra/openai/completion_usage.go:402-407 | one usage notice if the callback is set; nested calls change nothing |
| `Observer.CompletionUsageObserver.EmitEvidence` | internal/infra/openai/completion_usage.go:419-427 | one evidence notice if the callback is set; nested calls change nothing |
| `Observer.CompletionUsageObserver.NotifyTerminal` | internal/infra/openai/completion_usage.go:409-417 | at most one terminal notice; at `[DONE]` a nested Finish completes before it returns |
| `Observer.CompletionUsageObserver.React` | internal/infra/openai/completion_usage.go:402-427 | whatever calls a callback makes, the observer is left consistent, they have effect only as a Finish from the `[DONE]` callback, and it is recorded if one returned with a notification still owed |
| `Observer.CompletionUsageObserver.CallBack` | internal/infra/openai/completion_usage.go:402-427 | one nested call: inert once finishing, at `[DONE]` only a Finish has effect, and its return with the log incomplete is recorded |
| `Observation.RunMeaning` | internal/infra/openai/completion_usage.go:228-400 | any sequence of calls leaves the machine where feeding the bytes before the first Finish in one piece would |
| `Observation.AbsorbAppend` | internal/infra/openai/completion_usage.go:252-280 | a document body is the same however it is chunked, limit included |
| `Guarantees.RunDelivers` | internal/infra/openai/completion_usage.go:342-427 | a run with Finish in it has exactly the notifications of the bytes before it, terminal first just when the stream said `[DONE]` |
| `Guarantees.DocumentVerdict` | internal/infra/openai/completion_usage.go:364-380 | a document over 4194304 bytes is malformed, an empty one unavailable, any other what it decodes to |
| `Guarantees.StreamVerdictMeaning` | internal/infra/openai/completion_usage.go:386-400 | a stream's verdict in terms of its events' signals |
| `Guarantees.OneReportVerdict` | internal/infra/openai/completion_usage.go:228-400 | the usual stream, one report and `[DONE]` spelled out in bytes: the verdict is what the report says |
| `Guarantees.RunHoldsBack` | internal/infra/openai/completion_usage.go:336-340 | without Finish nothing is sent until a `[DONE]` event is complete |
| `Guarantees.ChunkingIndependent` | internal/infra/openai/completion_usage.go:228-280 | two runs that hear the same bytes end in the same state, hence with the same log |
| `Guarantees.ExactlyOnce` | internal/infra/openai/completion_usage.go:386-427 | one notice of each kind at most; evidence and terminal exactly once; usage just when evidence is available, with its value, whose token counts are never negative and whose durations are negative exactly for metrics of the reporting document above 2^63 - 1 nanoseconds; usage before evidence, terminal before both just for `[DONE]`, else after |
| `Guarantees.VerdictTrustworthy` | internal/infra/openai/completion_usage.go:374-398 | the usage of an available verdict comes from one document, the body or the reporting event, and its figures are bounded by that document as above |
| `Guarantees.RunBounded` | internal/infra/openai/completion_usage.go:244-262 | every reachable state is within the line, event and document caps |
| `Guarantees.FlushLaw` | internal/infra/openai/completion_usage.go:342-363 | finishing a stream equals hearing two line feeds and finishing, from every bounded state |
| `Guarantees.Drive` | internal/infra/openai/completion_usage.go:228-427 | the object carries out exactly the machine's run; a fresh one told to finish has sent exactly what the bytes before that earn, and one not told nothing unless `[DONE]` is complete |
| `Guarantees.NestedFinishReturnsEarly` | internal/infra/openai/completion_usage.go:342-345 | a nested Finish can return with the terminal notice still owed |
| `Guarantees.SingleCallbackNeverEarly` | internal/infra/openai/completion_usage.go:136-142 | with one callback set no nested Finish returns with a notification owed |
| `Readers.BufReads` | internal/infra/openai/completion_usage.go:162-166 | the buffered reader hands over the source's bytes in order and reports its final error only after the last |
| `Readers.FillMeaning` | internal/infra/openai/completion_usage.go:174-178 | filling reaches the end of an exhausted source exactly if it stalls fewer than the permitted times |
| `Readers.PeekMeaning` | internal/infra/openai/completion_usage.go:174-178 | a peek sees EOF exactly when no byte is left, the body ends in EOF, and fewer than a hundred empty reads intervene |
| `Readers.PeekMissesLateEOF` | internal/infra/openai/completion_usage.go:174-178 | with a hundred empty reads before EOF the peek after the last byte misses it |
| `Countdown.CountExact` | internal/infra/openai/completion_usage.go:182-198 | over every sequence of reads: complete exactly when some read lands on the length without a real error and nothing was spoiled before; bad exactly when some read passed the length or hit EOF short of it; else remaining is what is left, never negative |
| `Body.CompletionUsageBody.constructor` | internal/infra/openai/completion_usage.go:106-134 | which of the three modes is chosen, and that it starts with nothing delivered |
| `Body.CompletionUsageBody.Read` | internal/infra/openai/completion_usage.go:159-180 | bytes pass unchanged; the observer closes on the whole body or not at all; with lookahead, inside exactly the read that delivers the last byte, under the stated condition, and never on a body that ends in another error |
| `Body.CompletionUsageBody.CountOff` | internal/infra/openai/completion_usage.go:182-198 | one step of the countdown, which lands only at exactly the announced length |
| `Body.CompletionUsageBody.ObserveExpectedLength` | internal/infra/openai/completion_usage.go:182-198 | with a known length, what is closed on is exactly the first contentLength bytes |
| `Body.CompletionUsageBody.SenseLength` | internal/infra/openai/completion_usage.go:170-171 | known-length mode keeps the whole invariant: the countdown decides, on the first contentLength bytes |
| `Body.CompletionUsageBody.SenseEnd` | internal/infra/openai/completion_usage.go:172-178 | plain mode finishes on EOF; lookahead exactly when no byte is left and EOF is seen |
| `Body.ReadAll` | internal/infra/openai/completion_usage.go:159-180 | for any cutting by the source and any buffer sizes, in all three modes: the body itself is delivered and, if it ended in EOF, its notifications; with a known length, exactly when some read lands on it, and then those of the first contentLength bytes, so none for a truncated body; none for a document that ended in another error and has no announced length |
| `Body.ModesAgree` | internal/infra/openai/completion_usage.go:124-132 | the three modes deliver the same bytes, usage and evidence |
| `Headers.Header.RemoveHopByHopHeaders` | internal/infra/http/headers.go:20-31 | exactly the fields neither on the fixed list nor named by any token of an original Connection value remain, values untouched, even if a token names Connection |
| `Headers.KeysNamedByAllMeaning` | internal/infra/http/headers.go:21-27 | a key is deleted by the token loops exactly when some non-blank piece of some value names it |
| `Headers.ListNames` | internal/infra/http/headers.go:22-25 | a comma-separated value names what some piece, trimmed, names |
| `Headers.FixedNames` | internal/infra/http/headers.go:8-18 | the fixed list, name by name |
| `Headers.FixedKeys` | internal/infra/http/headers.go:28-30 | its names are their own canonical keys |
| `Headers.CanonicalSpelling` | internal/infra/http/headers.go:24 | a token's key has capitals exactly where a word starts; other names are their own keys |
| `Headers.TokenChars` | internal/infra/http/headers.go:24 | which characters make a token |
| `Text.TrimSpaceMeaning` | internal/infra/http/headers.go:23 | trimming a token removes the white space at its ends, all of it and nothing else |
| `Text.IsSpaceMeaning` | internal/infra/http/headers.go:23 | white space is what has the Unicode property White_Space |
| `Headers.SameKeyIffSameName` | internal/infra/http/headers.go:24 | two tokens name the same field exactly when they agree but for case |
| `Headers.FilterIdempotent` | internal/infra/http/headers.go:20-31 | filtering a filtered map changes nothing |
| `Proxy.ForwardedIffAllowed` | internal/app/tail/handler.go:121-201 | a request is forwarded exactly when it is canonical, its Authorization field is exactly the one value `Bearer ` and the token, and it is on the documented allowlist, and then to the listed path |
| `Proxy.AuthorizedMeaning` | internal/app/tail/handler.go:112-115 | a request is authorised exactly by one Authorization value, the bearer token |
| `Proxy.UnauthorizedIffTokenMissing` | internal/app/tail/handler.go:146-153 | a request on the allowlist is refused as unauthorised exactly if the field is absent, has no or several values, or another value |
| `Proxy.Refusals` | internal/app/tail/handler.go:121-201 | for every canonical request, exactly when it gets 404, liveness, 401, 405, attestation, the unavailable upstream status or the metrics |
| `Proxy.CanonicalMeaning` | internal/app/tail/handler.go:97-110 | which requests are canonical, a query after `?` included |
| `Proxy.CleanMeaning` | internal/app/tail/handler.go:103 | a clean path is the root or segments after slashes, none empty, `.` or `..` |
| `Proxy.Handler.Rewrite` | internal/app/tail/handler.go:73-83 | whatever the proxy prepared, the request goes to the fixed origin at its path with the configured token as sole Authorization; the predictive-profile query is the caller's |
| `Proxy.Handler.ForwardRequest` | internal/app/tail/handler.go:203-214 | what is sent has the request's method, the query the proxy leaves or the caller's own on the predictive profile, only end-to-end headers and the configured token, even if Connection names Authorization; the inbound request is not touched |
| `Proxy.Handler.Serve` | internal/app/tail/handler.go:121-201 | something is sent exactly when admission says forward, with that method, query and headers, at the admitted path (`/v1/metrics` becoming `/metrics`), and counted once |
| `ProxyAccounting.StepBalanced` | internal/app/tail/handler.go:203-214 | every atomic step keeps each counter equal to the number of requests in the matching phases |
| `ProxyAccounting.CountersCountSteps` | internal/app/tail/handler.go:84-90 | unavailable counts the error-handler runs for requests not canceled, forwarded the forwards |
| `ProxyAccounting.AccountsAddUp` | internal/app/tail/handler.go:203-214 | after any interleaving, panics included: nothing negative, unavailable is the number of failures not for a canceled request and at most forwarded; at quiescence nothing in flight and forwarded equals what admission accepted |
| `Hex.DecodeEncode` | internal/runtime/attestation/report.go:105 | hex text decodes to the bytes it encodes |
| `Hex.EncodeDecode` | internal/runtime/attestation/report.go:152 | decoding and encoding again only lower-cases |
| `Hex.EncodeMeaning` | internal/runtime/attestation/report.go:105 | two lower-case digits a byte, the high half first |
| `Hex.DecodeDefined` | internal/runtime/attestation/report.go:152-155 | what decodes is an even number of hexadecimal digits of either case |
| `Report.NewService` | internal/runtime/attestation/report.go:49-65 | a configured fingerprint is absent or exactly 32 bytes |
| `Report.BuildReportData` | internal/runtime/attestation/report.go:162-181 | the 64 bytes are the padded address, or the hash of address and certificate, followed by the nonce; errors exactly for bad lengths |
| `Report.ReportBindsNonce` | internal/runtime/attestation/report.go:67-129 | a report is quoted over 64 bytes that end in the nonce it states, the caller's in lower case if given, and has a fingerprint exactly in version 2 |
| `Report.ReportBindsSigner` | internal/runtime/attestation/report.go:67-129 | the quoted data ends in the request's nonce, its own or random if it gives none; the first half binds the signer the request names, ECDSA by default and Ed25519 by name: in version 2 by hash with the very fingerprint the report states, in version 1 as the zero-padded address |
| `Report.ReportIff` | internal/runtime/attestation/report.go:67-129 | a report is made exactly for version 0, 1 or 2, a known algorithm, a usable nonce, an address of 1 to 32 bytes, a certificate in version 2, and everything behind the endpoint working |
| `Report.BadRequestIff` | internal/runtime/attestation/report.go:67-95 | a bad request is exactly one for which no quote was asked, an unknown algorithm among them |
| `Report.ReportDataInjective` | internal/runtime/attestation/report.go:173-179 | version 2 data is equal exactly for equal nonces and either equal address and certificate or an explicit collision of the hash |
| `Report.ReportsBindIdentity` | internal/runtime/attestation/report.go:82-129 | two version 2 reports over equal data state the same nonce, and agree on address and fingerprint unless their hashed texts are a collision of the hash |
| `Nvidia.NormalizeComplete` | internal/runtime/attestation/report.go:302-341 | a normalised payload has nonce, evidence_list and arch |
| `Nvidia.NormalizeMeaning` | internal/runtime/attestation/report.go:302-341 | which payloads normalise, and to what: every member of one with an evidence_list is kept, any other becomes an envelope around its evidence |
| `Nvidia.NormalizeIdempotent` | internal/runtime/attestation/report.go:311-320 | normalising it again, with any nonce and architecture, changes nothing |
| `Nvidia.RequireNonEmptyEvidence` | internal/runtime/attestation/report.go:364-387 | accepts exactly a non-empty evidence array without null |
| `Nvidia.ArchNameMeaning` | internal/runtime/attestation/nvidia.go:53-59 | a blank architecture is HOPPER, any other is upper-cased and trimmed |
| `Nvidia.NormalizeChecked` | internal/runtime/attestation/report.go:227-238 | normalises, and rejects missing evidence exactly when evidence is required |
| `Nvidia.Precedence` | internal/runtime/attestation/report.go:183-216 | inline over all, a file with content over collector, URL and command, a collector that answers over URL and command, URL over command |
| `Nvidia.Payload` | internal/runtime/attestation/report.go:183-225 | the first source in order of precedence decides; every success has the three members, and real evidence if required |
| `StatusRecorder.FinalStatusStable` | internal/infra/http/status_recorder.go:32-34 | once settled, the status survives any later calls |
| `StatusRecorder.FinalStatusMeaning` | internal/infra/http/status_recorder.go:23-34 | the status is settled by the first body call, with 200, or header that is 101 or not in 100 to 199, with its code |
| `StatusRecorder.StatusRecorder.MarkHeader` | internal/infra/http/status_recorder.go:23-38 | interim statuses leave no mark; the first other one sets status and header time |
| `StatusRecorder.StatusRecorder.WriteHeader` | internal/infra/http/status_recorder.go:46-49 | the recorded status stays the first final one of the calls so far |
| `StatusRecorder.StatusRecorder.BeginBody` | internal/infra/http/status_recorder.go:51-86 | a body call implies 200 if nothing was settled, and a first write never precedes the header |
| `StatusRecorder.StatusRecorder.StatusOrOK` | internal/infra/http/status_recorder.go:105-110 | the first final status of the trace, 1xx other than 101 skipped, 200 if there is none |
| `StatusRecorder.StatusRecorder.FirstByteSince` | internal/infra/http/status_recorder.go:92-103 | measured from the first body call if any, else from the header, never before it, and not at all after interim responses alone |

## Left out

- JSON parsing, MIME parsing and the content-type check: library code; the decoder's inputs are a parameter.
- IEEE-754 rounding in the metric conversion: it is modelled over the reals, and the out-of-range conversion to int64 as amd64 performs it.
- Usage timestamps (`ObservedAt`) and `Close`: they carry no decision.
- Nil observers and a body wrapper with no callback set: the calls do nothing and the source is returned as it is.
- A callback that panics: only its calls back into the observer are modelled.
- 64-bit wrap-around of the handler's counters and of byte counts: counts are unbounded.
- `httputil.ReverseProxy`, transport, timeouts and contexts: the proxy is its hop-by-hop filter, the query it leaves, the Rewrite hook, and an error handler run at most once per request; the empty User-Agent it adds when there is none is not shown.
- The text of metrics, error and report responses, and the fetching of NVIDIA evidence by URL or command: input and output plumbing.
- NVML, the dstack client, key generation, SHA-256, Keccak, PEM and X.509: foreign or library code.
- The validation of configuration in `New` (origin, token, timeout): its outcome is a precondition on the origin; healthcheck, TLS listener set-up, command dispatch and server start-up: small finite branching.
- Nvidia.Normalize: works on JSON values, so number formatting and duplicate keys in the text are not captured.
- Proxy.IsClean: states when path.Clean leaves a rooted path as it is, not what it does to others.
- Nvidia.ArchName: upper-cases ASCII letters only, where the source's upper-casing is Unicode; the same holds for the lower-casing of the signing algorithm's name, where no other letter can matter.
