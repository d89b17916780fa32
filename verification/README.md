# Verified model of leakspok

leakspok cuts a byte string into tokens, decides for every token which detection rule matches it
first, and rewrites the matched tokens. This project models that behaviour in Dafny and proves
what it guarantees. `dafny verify dfyconfig.toml` checks everything.

## What is modelled

**Rules and answers** (`Rules`, `Classification`, `TokenCache`, `SerialRunner`). A rule has a matcher
tagged with an entity, exceptions and a disable flag. `FirstMatch` is the reference decision: the first
enabled rule that is not excepted on the token and whose matcher accepts it. The serial runner is a class
over a mutable cache and mutable result maps, written with the source's loops, and is proved to return
`FirstMatch` for every cache content made of true negatives and every failure of a cache command.

**The runner protocol** (`Protocol`, `ProtocolInvariant`, `ProtocolSafety`, `ProtocolProgress`,
`ProtocolAnswers`, `ProtocolOrder`, `ProtocolRuns`, `ProtocolRace`, `ProtocolClosure`, `ProtocolCancel`,
`ProtocolStop`, `ProtocolCache`, `Collector`). Any number of `Process` calls with different rule lists
run on one runner, serial or concurrent, with or without coalescing. The steps are: start a call, read the
cache (may fail), lead or join a token's flight, submit a task to a bounded pool (may be rejected once the
pool is closed), a worker's look at its context, a worker's send on the buffered channel, receive, stop on
a done context, drain, save (may fail), forget the key, publish, resume, save a residual, cancel a caller,
expire cached fields, close the pool. Theorems are about every schedule of these steps. `Collector`
states the leader's collecting loop over a mutable channel and proves that its runs are schedules of the
protocol. `ProtocolStop` is about what stops and what does not: no further matcher after a match, a
cancellation or the end of the body, no more tasks than slots, finished work saved, cancelled callers free.
`ProtocolCache` is about what the cache is for: hits cost nothing, only negative batches are written, and a
saved token is not evaluated again.

**The tokeniser** (`Utf8`, `Tokenizer`, `TokenBytes`). UTF-8 decoding follows sections 3 and 4 of RFC 3629 and is
proved to be the inverse of encoding. The nested loops, their escape flag and the backtracking branch are
modelled as coded, compared with a one-pass automaton, and characterised by what gaps and tokens contain,
rune by rune and byte by byte.

**The anonymisation pipeline** (`Rewriting`, `Redaction`, `ByteAnalyzer`, `TokenPool`, `AnalyzerRuns`).
Rewriting is stated for whatever answers a runner gives per token. `Redaction` says what stands at a
replaced token's place, and that contents differing only in hidden bytes have one output. The sequential analyser is a class over a serial
runner and an output writer. The pooled path is a transition system whose tasks finish in any order.
`AnalyzerRuns` takes the answers of both paths from one schedule of the runner protocol, serial or
concurrent, in which the tokens' calls share flights, cache and pool with any other callers.

**Matchers** (`RuneFilter`, `CheckDigits`, `Congruences`, `Thresholds`, `Phone`, `PhoneForms`, `Repeating`).
Check-digit arithmetic, the congruences it amounts to and its exact error-detecting power, short-circuit
thresholds, De Morgan over nested formulas, the exact language of the phone matcher, and repeated digits.

## Assumptions

- Matchers and exceptions are pure and total; a panicking matcher is outside the model.
- Matchers of the same entity agree on every token (`Rules.Coherent`): the runners share results by
  entity (`analyzer/serial_runner.go:38-40`).
- The cache holds only true negatives at the start (`TokenCache.TrueNegatives`), which is what the runners
  themselves keep.
- A cancelled context stays cancelled, and a closed pool stays closed.
- Progress with the concurrent runner needs a pool of size at least one, as `NewAntsWorkerPool` demands.
- Token-level and rule-level concurrency have separate pools, as the factory builds them
  (`analyzer/factory.go:184-204`).
- A rule whose strategy is REDACT or MASK carries the settings of that strategy; the source dereferences
  them without a check.

## Where the code and its documentation disagree

The model follows the code.

- `analyzer/concurrent_runner.go:56` and `:92-93` say the first matching rule is returned. A flight's leader
  returns whichever match was collected first (`:84-89`). `ProtocolRace.FirstMatchOrderIff` gives the exact
  condition under which the promise holds in every schedule: the pool has one slot, or a single entity
  fires on the token. `ProtocolRace.LaterMatchWins` builds the failing schedule for every other case.
- `analyzer/concurrent_runner.go:265-266` says a cancelled collection persists nothing. A select that keeps
  taking the channel branch reaches the save at `:262` or `:272`. `ProtocolCancel.CancelledSaveIff`: a
  collection whose leader is cancelled can still save exactly when some task had passed its look at the
  context, or had sent its outcome, and does not match. `ProtocolCancel.CancelledCollectionSaves` builds
  such a run for every request with an unmatched missing entity. While the flight still submits, a saving
  run exists exactly when the pool is also open (`ProtocolCancel.CancelledSubmitSaveIff`).
- `analyzer/concurrent_runner.go:32`, `:63-64` and `:319` say a stopped runner reports no match. A call that
  joins a flight whose tasks were all submitted before the closure answers its first match.
  `ProtocolClosure.StoppedAnswersNoneIff` says exactly which calls answer nothing, and
  `ProtocolClosure.StoppedRunnerStillMatches` builds the run for every request with a match.
- `analyzer/byte_analyzer.go:240-241` says that after `Stop` tokens are processed sequentially. The pool
  stays set and rejects the first token, so the content is copied unchanged
  (`TokenPool.StoppedAnalyzerCopiesInput`). Without cancellation the pooled result is the sequential one
  exactly when no token the pool refused has a match (`AnalyzerRuns.PooledIsSequential`).
- `analyzer/byte_analyzer.go:180-183` says pooled output is byte-for-byte identical to sequential output.
  Under a done context it is not: a pooled task returns at `:204-208` without calling `Process`, while the
  sequential path over a serial runner without coalescing never looks at the context
  (`ProtocolSafety.SerialAnswers`). `AnalyzerRuns.CancelledPoolCopiesInput` builds the failing run for every
  content with a match. Under any cancellation, refusal and completion order the pooled actions are those of
  the first matches of the found tokens, and the sequential ones exactly when every matched token was found
  (`AnalyzerRuns.PooledResult`).
- `pattern/regex.go:758-759` says CNPJ letters have values 10 to 35. They have values 17 to 42:
  `CheckDigits.LetterValues`.
- `pattern/meta.go:44` says `All()` of nothing is true. It is false, so De Morgan's laws hold on a list
  exactly when it is not empty: `Thresholds.DeMorganIffNonEmpty`.
- `pattern/regex.go:105` says each byte is processed at most twice. In `11112` the last byte is read five
  times (`Repeating.FiveReads`), which is the most any byte is read (`Repeating.AtMostFiveReads`). Two reads
  suffice exactly when, up to the first run of five, no byte follows two equal digits
  (`Repeating.TwiceIffNoPairFollowed`). The cost stays linear: at most five comparisons for two bytes.

## Model

| member | source | states |
|---|---|---|
| Rules.FirstMatchIsLeast | analyzer/serial_runner.go:76-93 | A firing rule with no firing rule before it is the reference decision. |
| Rules.FirstMatchWitness | analyzer/serial_runner.go:76-93 | A reference decision is always a firing rule of the list with no firing rule before it. |
| Rules.NoneFiresMeansNoMatch | analyzer/serial_runner.go:60 | When no rule fires there is no decision. |
| Rules.FirstMatchExactly | analyzer/serial_runner.go:105-120 | The decision is the first rule that is enabled, none of whose exceptions matches the token and whose matcher does; there is none when no rule is such. |
| Rules.ExceptionDisables | analyzer/serial_runner.go:114-115 | On a token its new exception matches a rule counts as disabled; on any other nothing changes. |
| Rules.SoundIsFirstMatch | analyzer/concurrent_runner.go:92-107 | When one entity fires, any live, truly matching first claimant of its entity is the first match. |
| Rules.SoundImpliesMatch | analyzer/concurrent_runner.go:63-64 | A sound report is never made when no rule matches. |
| Rules.IsException | analyzer/byte_analyzer.go:257-265 | The loop finds an exception exactly when one of the rule's exceptions matches. |
| Classification.MissingSetIsGood | analyzer/serial_runner.go:96-124 | The missing set has distinct entities, none of them cached, each paired with the first live rule claiming it. |
| Classification.LiveRuleIsQueued | analyzer/serial_runner.go:116-119 | Every enabled, unexcepted rule whose entity the cache did not answer has its entity in the missing set. |
| Classification.MissingExactly | analyzer/serial_runner.go:96-99 | An entity is missing exactly when a live rule detects it and the cache did not answer it; nothing is missing exactly when the cache answered every live rule. |
| Classification.MatchAllIsTruthful | analyzer/serial_runner.go:179-187 | Evaluating a missing set decides exactly its entities, each as it really is. |
| Classification.ResidualProperties | analyzer/serial_runner.go:154-164 | The residual is the part of the missing set the shared results lack, and together they cover it. |
| Classification.MergedCovers | analyzer/serial_runner.go:171-176 | Shared and residual results merged cover a waiter's missing set. |
| Classification.FinalPassIsSound | analyzer/concurrent_runner.go:92-109 | From true but possibly partial results, the final pass reports only a live, truly matching first claimant. |
| Classification.FinalPassIsFirstMatch | analyzer/serial_runner.go:76-93 | From results covering the missing set, the final pass is exactly the first match of the caller's own rules. |
| TokenCache.StoreNegativesKeepsTruth | analyzer/serial_runner.go:189-204 | Persisting the negatives of true results leaves every stored field false and true of its token. |
| TokenCache.StoresNegatives | analyzer/serial_runner.go:189-204 | What is persisted is false for exactly the entities that did not match, beside the fields already there; nothing when all matched. |
| TokenCache.CacheStore.GetMatches | analyzer/cache/store.go:14-18 | A read returns exactly the fields of the token's hash, an empty map when nothing is cached, or fails. |
| TokenCache.CacheStore.SaveMatches | analyzer/cache/store.go:20-23 | A save sets the batch's fields and keeps the token's other fields and every other token, or fails and changes nothing. |
| SerialRunner.ClassifyRules | analyzer/serial_runner.go:100-124 | One pass over the rules yields the ordered views and the deduplicated missing set. |
| SerialRunner.MatchMissing | analyzer/serial_runner.go:181-187 | The loop evaluates every missing entity with its own rule's matcher, each called once and in order. |
| SerialRunner.CollectNegatives | analyzer/serial_runner.go:193-198 | In whatever order the map is visited, exactly the negative outcomes are collected. |
| SerialRunner.CollectResidual | analyzer/serial_runner.go:156-161 | Exactly the entries without a shared result, in order. |
| SerialRunner.FirstHit | analyzer/serial_runner.go:78-93 | The in-order pass stops at the first view that wins. |
| SerialRunner.SerialRulesRunner.SaveNegatives | analyzer/serial_runner.go:192-204 | One batch of negatives is saved, and none when there is no negative. |
| SerialRunner.ResultMap.CopyFrom | analyzer/serial_runner.go:173-175 | Copying one result map into another overrides equal keys and leaves the source map as it was. |
| SerialRunner.SerialRulesRunner.FinishResidual | analyzer/serial_runner.go:154-177 | The residual is evaluated, its negatives saved once, and the result merged into a new map; the shared instance is never written. |
| SerialRunner.SerialRulesRunner.EvaluateMissing | analyzer/serial_runner.go:132-177 | Into a new map, a leader decides its missing set truly, saves its negatives once, and has no residual to save. |
| SerialRunner.SerialRulesRunner.Process | analyzer/serial_runner.go:61-94 | The first match is returned for every true-negative cache and every failing command; the matchers called are those of the missing set, one batch is sent if one of them is negative, and a token whose live rules are all cached costs neither a matcher nor a batch. |
| ProtocolInvariant.StepKeepsInv | analyzer/concurrent_runner.go:148-273 | Every step of every party keeps the invariant on cache, calls, flights, workers, channel and registry. |
| ProtocolInvariant.TakeItem | analyzer/concurrent_runner.go:254-258 | Receiving an item keeps every worker accounted for and the recorded outcomes true. |
| ProtocolInvariant.AllReceived | analyzer/concurrent_runner.go:252-272 | When every task was received without a match, every entity is decided or the leader was cancelled. |
| ProtocolInvariant.ResidualCompletes | analyzer/concurrent_runner.go:189-211 | A waiter's residual completes whatever its flight shared: the merged answer is the first match of its own rules. |
| ProtocolInvariant.WinnerIsSound | analyzer/concurrent_runner.go:255-262 | The match a leader collected is a live rule, truly matching and the first claimant of its entity. |
| ProtocolSafety.SerialAnswers | analyzer/serial_runner.go:61-204 | In every schedule an uncancelled serial call answers the first match of its own rules, a cancelled one that or nothing; without coalescing even a cancelled one answers the first match. |
| ProtocolAnswers.ConcurrentAnswers | analyzer/concurrent_runner.go:65-212 | A reported rule is always sound, even after closure or cancellation. An uncancelled call whose flight the pool rejected reports nothing; any other reports a match exactly when one exists, and the first match unless it led and several entities fire. |
| ProtocolAnswers.ResumeAnswers | analyzer/concurrent_runner.go:163-211 | What a caller answers on receiving its flight: nothing from a rejected body, the collected match as its leader, its own first match otherwise. |
| ProtocolClosure.StoppedAnswersNoneIff | analyzer/concurrent_runner.go:63-64 | On a closed pool an uncancelled call answers nothing exactly when no rule matches or its flight had not submitted every task by the closure. |
| ProtocolClosure.LateLeaderAnswersNone | analyzer/concurrent_runner.go:319-320 | A call that leads a flight after the closure answers nothing. |
| ProtocolClosure.StoppedRunnerStillMatches | analyzer/concurrent_runner.go:31-32 | For every request with a match, some runner stopped before the call still answers the first match. |
| ProtocolCancel.CancelledSaveIff | analyzer/concurrent_runner.go:252-272 | A collection whose leader is cancelled can still save exactly when a task that passed its look at the context, or has sent, does not match. |
| ProtocolCancel.ReachableCancelledSaveIff | analyzer/concurrent_runner.go:264-267 | The same condition in every state a schedule reaches. |
| ProtocolCancel.CancelledSubmitSaveIff | analyzer/concurrent_runner.go:230-249 | A flight cancelled while it still submits can save exactly while the pool is open and such a task does not match. |
| ProtocolCancel.BarrenNeverSaves | analyzer/concurrent_runner.go:305-317 | Without such a task no continuation saves anything, whatever else happens. |
| ProtocolCancel.CancelledCollectionSaves | analyzer/concurrent_runner.go:264-272 | For every request with an unmatched missing entity, a run whose only call is cancelled while collecting and whose flight then saves that negative. |
| ProtocolStop.StoppedFlightEvaluatesNothing | analyzer/concurrent_runner.go:221-241 | Once a flight has a match, its leader is cancelled or its body is over, no schedule lets a further task past its look: whatever evaluates or is reported later was past it already, and every other task sends that it bailed out. |
| ProtocolStop.UnstoppedFlightEvaluates | analyzer/concurrent_runner.go:234-240 | Until there is such a reason no task bails out. |
| ProtocolStop.PoolIsBounded | analyzer/pool.go:15-18 | In every schedule the tasks holding a slot, over all flights, are at most the pool's slots. |
| ProtocolStop.FinishedWorkIsSaved | analyzer/concurrent_runner.go:275-290 | Whatever a task had sent while the collection ran is among the results at the body's save, and stored if negative and the save succeeds. |
| ProtocolStop.CancelledCallEvaluatesNothing | analyzer/concurrent_runner.go:182-187 | A cancelled caller of the concurrent runner evaluates and saves no residual any more. |
| ProtocolStop.CancelledWaiterReturns | analyzer/singleflight_coalescer.go:53-63 | A cancelled caller waiting for a shared flight can return at once, with nothing. |
| ProtocolStop.CancelledLeaderReturns | analyzer/concurrent_runner.go:264-267 | A cancelled collecting leader can return within four steps, without waiting for a task and without a save. |
| ProtocolStop.SerialResumedAnswers | analyzer/serial_runner.go:139-177 | A serial call that received its flight's value answers the first match, cancelled or not. |
| ProtocolCache.CachedCallReturnsAtOnce | analyzer/concurrent_runner.go:70-82 | A successful read ends a call exactly when the hash answers every live rule; its answer is the first match, and in no later state does it take part in a flight or save. |
| ProtocolCache.NoRulesNoRead | analyzer/concurrent_runner.go:66-68 | Without rules a concurrent call is over before it reads; a serial one reads first. |
| ProtocolCache.FailedReadAsksAll | analyzer/concurrent_runner.go:72-76 | A failed read leaves everything to be evaluated. |
| ProtocolCache.ExpiredIsAskedAgain | analyzer/cache/options.go:11-12 | Expiry removes the named fields and no others, and a live rule that needs one is evaluated again. |
| ProtocolCache.OnlySavesWrite | analyzer/concurrent_runner.go:304-317 | Apart from expiry only saves touch the cache: false for exactly the entities that did not match, in one counted batch, and none when nothing is negative. |
| ProtocolCache.FieldsStay | analyzer/cache/store.go:20-23 | Without expiry no schedule removes a stored field. |
| ProtocolCache.SavedTokenIsNotEvaluatedAgain | analyzer/concurrent_runner.go:56-60 | After a flight that decided all it was asked and whose save succeeded, and without expiry, a later call with the same rules asks only the matchers that match; when no rule fires it returns at once. |
| ProtocolSafety.CacheStaysTrue | analyzer/concurrent_runner.go:251-317 | In every schedule each stored field is false and its entity really does not match the token. |
| ProtocolSafety.AtMostOneSave | analyzer/serial_runner.go:126-131 | In every schedule a call causes at most one save, in its flight or for its residual; a leader never has a residual. |
| ProtocolSafety.IncompleteMeansCancelled | analyzer/concurrent_runner.go:182-187 | A body's result without a match covers the leader's missing set or the leader was cancelled. |
| ProtocolSafety.OneBodyPerToken | analyzer/singleflight_coalescer.go:11-16 | With coalescing a token never has two bodies evaluating or saving at once. |
| ProtocolSafety.ScheduleRemembers | analyzer/singleflight_coalescer.go:46-64 | No schedule takes back what a body returned, a winner, a publication, a call's flight, or an answer once given. |
| ProtocolSafety.JoinerReceivesRunningFlight | analyzer/singleflight_coalescer.go:42-64 | A joiner receives the value of the flight registered for its token when it joined, which was not yet forgotten. |
| ProtocolSafety.SendNeverBlocks | analyzer/concurrent_runner.go:226-249 | The received messages, the buffered ones and the active tasks add up to the submitted tasks; buffered messages come from different tasks, none of them active; and a task about to send always finds room. |
| ProtocolProgress.StepWorks | analyzer/concurrent_runner.go:220-290 | Every step of a caller, body or worker uses up remaining work; cancelling, closing and expiring add none. |
| ProtocolProgress.BoundedWork | analyzer/concurrent_runner.go:65-290 | In every schedule the runner takes at most 10 + 4 * number of rules steps per request. |
| ProtocolProgress.SomethingCanStep | analyzer/concurrent_runner.go:220-273 | Until every call returned, every flight published and every task sent, some step of the runner is enabled: no deadlock on pool or channel. |
| ProtocolProgress.EverythingCompletes | analyzer/concurrent_runner.go:322-330 | From every reachable state everything can complete within the remaining work, also on a closed pool or after cancellation. |
| ProtocolOrder.FirstMatchingIsFirstMatch | analyzer/concurrent_runner.go:112-140 | The missing set keeps rule order: its first matching entry is the first match. |
| ProtocolOrder.StepKeepsOrder | analyzer/concurrent_runner.go:230-249 | With one slot, tasks are sent, buffered and received in missing-set order. |
| ProtocolOrder.SingleSlotAnswers | analyzer/concurrent_runner.go:56-65 | With one slot every uncancelled call whose flight was not rejected answers the first match. |
| ProtocolRace.LaterMatchWins | analyzer/concurrent_runner.go:84-89 | With two slots and two firing entities, in some schedule the call, neither cancelled nor rejected, answers something else than the first match. |
| ProtocolRace.FirstMatchOrderIff | analyzer/concurrent_runner.go:56-110 | Every schedule answers the first match exactly when the pool has one slot or one entity fires. |
| Collector.DrainCompleted | analyzer/concurrent_runner.go:275-290 | The non-blocking drain records everything buffered and empties the channel. |
| Collector.CollectEvaluations | analyzer/concurrent_runner.go:251-273 | The collecting loop returns the outcomes and winner of the protocol's receives and drains, and saves their negatives unless it was stopped. |
| Collector.CollectionIsSchedule | analyzer/concurrent_runner.go:252-290 | A run of the collecting loop is a schedule of the protocol, whatever else is in flight. |
| Collector.CollectionIsTrue | analyzer/concurrent_runner.go:214-219 | In every reachable state the loop's outcomes are true, its winner matches, and without match or cancellation nothing is left undecided. |
| Utf8.EncodedDecodes | analyzer/tokenization.go:42 | Every encoded scalar value decodes to itself, in any context. |
| Utf8.DecodedIsEncoded | analyzer/tokenization.go:42 | A position decodes to the scalar value encoded there, and to a one-byte error exactly when none is. |
| Utf8.EncodedBytes | analyzer/tokenization.go:42 | Lengths, lead bytes and continuation bytes of the encoding, and the bytes that never appear. |
| Utf8.EncodingKeepsOrder | analyzer/tokenization.go:42 | Encodings compare byte by byte as the values they encode. |
| Utf8.EncodedExamples | analyzer/tokenization.go:42 | The encodings given as examples in section 7 of RFC 3629. |
| Tokenizer.SkipDelimiters | analyzer/tokenization.go:39-61 | The skipping loop with its escape flag computes the end of the gap. |
| Tokenizer.FindTokenEnd | analyzer/tokenization.go:63-81 | The token ends at the next delimiter or the end of input; the escape flag never rises, so the backtracking branch is dead. |
| Tokenizer.TokenIterator | analyzer/tokenization.go:83-96 | The iteration yields the tokens of the whole input, on every byte string. |
| Tokenizer.NestedIsOnePass | analyzer/tokenization.go:39-96 | The nested loops yield the tokens of a one-pass three-mode automaton. |
| Tokenizer.SkipIsGap | analyzer/tokenization.go:39-61 | Every skipped rune is a delimiter, or n, t or r with a backslash earlier in the gap and no control letter since; and the gap is as long as possible. |
| Tokenizer.TokensAlternate | analyzer/tokenization.go:83-96 | The input is gap, token, gap, ..., gap, each gap complete and each token whole runes without a delimiter. |
| Tokenizer.TokensAreSeparated | analyzer/tokenization.go:83-96 | Tokens are non-empty, in range, on decode boundaries of the input and at least one byte apart. |
| Tokenizer.TokensCharacterised | analyzer/tokenization.go:8-97 | A list alternates with the gaps exactly when it is the tokeniser's list. |
| TokenBytes.TokensHoldWordBytes | analyzer/tokenization.go:11-12 | Every ASCII byte of a token is none of the listed delimiters: no token holds a slash, so a punctuated CNPJ is always cut. |
| TokenBytes.WordIsToken | analyzer/tokenization.go:15-19 | A string of the remaining ASCII bytes is one token, whole. |
| TokenBytes.DelimiterCuts | analyzer/tokenization.go:15-19 | Any other ASCII delimiter between two words makes them two tokens and belongs to neither. |
| TokenBytes.EscapeCuts | analyzer/tokenization.go:24-28 | After a backslash between words n, t or r is dropped with it, and any other letter starts the next token. |
| TokenBytes.WideRuneCuts | analyzer/tokenization.go:30-36 | Between words a rune beyond ASCII cuts exactly when it is one of the listed white-space runes. |
| Rewriting.MaskCoversPrefix | analyzer/rules.go:24-29 | A mask covers the first MaxSize bytes, clamped between one and the token, by that many masking characters and keeps the rest. |
| Rewriting.CopiedByte | analyzer/byte_analyzer.go:131-132 | Every byte outside the replaced tokens is copied to its place shifted by the growth before it. |
| Rewriting.RenderedToken | analyzer/byte_analyzer.go:134-150 | Each replaced token's rendering stands whole at the token's shifted place. |
| Rewriting.CopiesKeepOrder | analyzer/byte_analyzer.go:124-156 | Copied bytes keep their order and no two share a place. |
| Rewriting.OutputLength | analyzer/byte_analyzer.go:124-156 | The output is as long as the input plus the growth of every action. |
| Rewriting.SingleByteMaskKeepsLength | analyzer/byte_analyzer.go:137-149 | Masking with single bytes preserves length. |
| Rewriting.RewriteIsReference | analyzer/byte_analyzer.go:80-156 | Whatever the runner answers per token, applying the matched tokens' actions gives the token-by-token reference output. |
| Rewriting.PrefixIsAll | analyzer/byte_analyzer.go:222-226 | The first tokens have all the actions exactly when no later token is matched. |
| Rewriting.KeptIsAll | analyzer/byte_analyzer.go:204-218 | Dropping some tokens' answers leaves all the actions exactly when no matched token is dropped. |
| Rewriting.FindingsIffMatch | analyzer/byte_analyzer.go:106 | Something is found exactly when some token is matched. |
| Redaction.RedactedToken | analyzer/byte_analyzer.go:135-136 | At a redacted token's shifted place stands exactly the placeholder, and the output grows by its length less the token's. |
| Redaction.MaskedToken | analyzer/byte_analyzer.go:137-149 | At a masked token's shifted place stand the symbol once per covered byte and the rest of the token; the output grows by the symbol's length less one per covered byte. |
| Redaction.DroppedToken | analyzer/byte_analyzer.go:134-150 | Any other strategy leaves nothing of the token. |
| Redaction.PlaceholderStands | analyzer/byte_analyzer.go:80-119 | In the output of a whole content every token whose first match redacts is replaced by that rule's placeholder. |
| Redaction.HiddenBytesDoNotShow | analyzer/byte_analyzer.go:121-156 | Contents that differ only inside tokens redacted with the same settings, or in the covered bytes of equally long masked ones, have the same output. |
| ByteAnalyzer.ApplyAction | analyzer/byte_analyzer.go:134-150 | Writes the placeholder; or the symbol once for every covered byte and then the uncovered ones; or, for any other strategy, nothing. |
| ByteAnalyzer.ApplyActions | analyzer/byte_analyzer.go:124-156 | No slice is out of range and the output grows by the rewritten content. |
| ByteAnalyzer.Analyzer.AnonymizeSequential | analyzer/byte_analyzer.go:159-178 | One action per matched token in order and the matched entities, whatever the cache holds or fails to do. |
| ByteAnalyzer.Analyzer.Anonymize | analyzer/byte_analyzer.go:81-119 | Writes exactly the reference output and reports exactly the entities of the tokens' first matches; empty data or rules write and report nothing. |
| TokenPool.SortIsUnique | analyzer/byte_analyzer.go:231-234 | Distinct starts leave one sorted arrangement, so an unstable sort is harmless. |
| TokenPool.PooledRewrite | analyzer/byte_analyzer.go:197-236 | For every completion order, cancellation and rejection, the output is the reference output with the answers of the called tokens only. |
| TokenPool.PooledActions | analyzer/byte_analyzer.go:197-236 | For every completion order, cancellation and rejection, the sorted actions and the entities are those of the answers of the tokens whose task called the runner, in token order, and the whole loop's exactly when every matched token was called. |
| TokenPool.PooledIsLoop | analyzer/byte_analyzer.go:180-237 | Without cancellation every submitted token was called and answered, and the result is what a loop over those tokens collects. |
| TokenPool.PooledOutputIsReference | analyzer/byte_analyzer.go:180-183 | Uncancelled and with nothing refused, pooled and sequential processing of the same answers write the same bytes. |
| TokenPool.CancelledResult | analyzer/byte_analyzer.go:204-208 | Once the context is done no further task calls the runner: the result is that of the tokens called by then, and nothing when there were none. |
| TokenPool.SlotsAreBounded | analyzer/pool.go:15-18 | The tasks of a call never hold more slots than the pool has. |
| TokenPool.CancelledFindsNothing | analyzer/byte_analyzer.go:204-208 | Under a context done from the start, an open pool that refuses nothing can run every token, and none calls the runner. |
| TokenPool.WaitEnds | analyzer/byte_analyzer.go:194-229 | Once every pooled call is answered, the token loop and its wait end within the remaining work, on an open or closed pool and under any cancellation. |
| AnalyzerRuns.TaskFinishes | analyzer/byte_analyzer.go:210-219 | A pooled task whose uncancelled serial call has answered can finish, and appends exactly the first match's action. |
| AnalyzerRuns.PooledResult | analyzer/byte_analyzer.go:180-237 | Over a pool schedule and a serial runner schedule together, with any cancellation, refusal and completion order: the result is that of the found tokens' first matches, and the sequential one exactly when every matched token was found; found are the matched among the called, unless a cancelled call gave up a shared flight, and uncancelled every submitted token is called. |
| AnalyzerRuns.PooledIsSequential | analyzer/byte_analyzer.go:180-237 | Without cancellation, over a pool schedule and a serial runner schedule together: the result is the sequential one of the submitted tokens, and of all tokens exactly when no refused token has a match. |
| AnalyzerRuns.PooledOutput | analyzer/byte_analyzer.go:180-183 | Over both schedules the output replaces exactly the found tokens by the renderings of their first matches; uncancelled with nothing refused it is the reference output. |
| AnalyzerRuns.CancelledPoolCopiesInput | analyzer/byte_analyzer.go:204-208 | For every content and runner some pooled run under a done context copies the content unchanged, which is not the sequential result whenever a token has a match. |
| AnalyzerRuns.ConcurrentOutput | analyzer/byte_analyzer.go:159-178 | Over a concurrent runner, whatever was cancelled or rejected, exactly the answered tokens are replaced, each by the rendering of a sound rule, and rejected ones are kept; with all tokens served, and one slot or one entity firing per token, the output is the reference output. |
| AnalyzerRuns.PooledConcurrentOutput | analyzer/byte_analyzer.go:180-237 | The pooled path over a concurrent runner replaces exactly the called tokens that were answered, by the renderings of their sound answers, and reports their entities; with nothing cancelled or refused, all served, and one slot or one entity per token, output and entities are the sequential reference ones. |
| AnalyzerRuns.SomeRunServes | analyzer/byte_analyzer.go:168-169 | Every runner has a run that answers all of a content's tokens. |
| TokenPool.StoppedAnalyzerCopiesInput | analyzer/byte_analyzer.go:222-243 | On a pool closed before the call nothing is anonymised and the content is copied. |
| RuneFilter.DigitRunesAreDigitBytes | pattern/regex.go:698-703 | Dropping the runes that are not digits is dropping the bytes that are not digits, on any bytes. |
| RuneFilter.SeparatorsAreBytes | pattern/regex.go:752-756 | Splitting at ASCII separator runes and joining is dropping separator bytes, on any bytes. |
| CheckDigits.ValidateCPFCheckDigits | pattern/regex.go:665-693 | The loops accept exactly when both check digits are the folded mod-11 remainders. |
| CheckDigits.MatchCPF | pattern/regex.go:696-711 | The verdict depends only on the input's digit bytes, which must be eleven. |
| CheckDigits.CpfIgnoresNonDigits | pattern/regex.go:697-703 | Inserting bytes that are not digits anywhere never changes the verdict. |
| CheckDigits.CpfCompletion | pattern/regex.go:663-693 | Every nine digits have exactly one accepted completion. |
| CheckDigits.CpfSingleErrors | pattern/regex.go:663-693 | Exactly which single-digit errors an accepted CPF hides: index 0 by one, index 5 by two or nine, each at named remainders of the two sums; never a check digit. |
| CheckDigits.CpfUndetectedExamples | pattern/regex.go:663-693 | Each of these differences occurs. |
| CheckDigits.CpfSwapsDetected | pattern/regex.go:663-693 | Exactly which swaps of adjacent base digits an accepted CPF hides: equal digits, or a step of one at named remainders; two or more apart is always rejected. |
| CheckDigits.CpfUndetectedSwap | pattern/regex.go:663-693 | A hidden swap of different digits occurs. |
| CheckDigits.Checksum | pattern/regex.go:806-818 | The loop computes the folded weighted sum. |
| CheckDigits.MatchCNPJ | pattern/regex.go:722-748 | The verdict depends only on the input's digit bytes, which must be fourteen. |
| CheckDigits.CleanCNPJFormat | pattern/regex.go:752-756 | The six formatting characters go, every other byte stays in order. |
| CheckDigits.MatchCNPJV2 | pattern/regex.go:771-804 | Accepts exactly fourteen cleaned bytes A-Z or 0-9 up to case, at least one a letter, with valid check digits. |
| CheckDigits.CnpjSingleErrors | pattern/regex.go:744-747 | Exactly which single-symbol errors an accepted CNPJ hides: multiples of 11, and named residues at index 0, 4 or 8 at named remainders; never a check digit. |
| CheckDigits.CongruentErrorsPass | pattern/regex.go:799-803 | A symbol replaced by one congruent modulo 11 is never detected. |
| CheckDigits.CnpjNumericSingleErrors | pattern/regex.go:721-748 | For digits, exactly: index 0 or 8 by two or nine, index 4 by five or six, at the named remainders. |
| CheckDigits.CnpjUndetectedExamples | pattern/regex.go:716-719 | Each of these differences occurs at each of its positions. |
| CheckDigits.AlphanumericSingleErrors | pattern/regex.go:768-804 | Exactly which single-symbol replacements of an accepted alphanumeric form stay accepted. |
| CheckDigits.AlphanumericEndsInDigits | pattern/regex.go:802-803 | Accepted alphanumeric forms end in two decimal digits. |
| CheckDigits.LetterValues | pattern/regex.go:758-766 | Letters have values 17 to 42. |
| CheckDigits.CnpjFormsAreDisjoint | pattern/regex.go:721-804 | The numeric and the alphanumeric matcher never both accept an input. |
| Congruences.CpfCongruences | pattern/regex.go:663-693 | A CPF is accepted exactly when each check digit makes its weighted sum divisible by 11, or is zero at remainder one; the weights are written out. |
| Congruences.CnpjCongruences | pattern/regex.go:744-747 | The same for both CNPJ forms. |
| Congruences.OneCpfCompletion | pattern/regex.go:663-693 | Every nine digits have one accepted completion, and no other pair completes them. |
| Congruences.OneCnpjCompletion | pattern/regex.go:806-818 | Every twelve symbols have one accepted completion, and no other pair completes them. |
| Congruences.SamplesAccepted | analyzer/tokenization.go:11 | The digits of 11.444.777/0001-61 and of 111.444.777-35 are accepted. |
| Congruences.CpfExactly | pattern/regex.go:696-711 | From bytes: eleven digits among them, whose check digits check. |
| Congruences.CnpjExactly | pattern/regex.go:722-748 | From bytes: fourteen digits among them, whose check digits check. |
| Congruences.AlphanumericExactly | pattern/regex.go:771-804 | From bytes: fourteen letters or digits of either case once the six formatting characters are gone, a letter among them, and both check symbols check. |
| Thresholds.AtLeastN | pattern/meta.go:220-257 | True exactly when n distinct patterns match, or one when n is below one, or all when n exceeds the list; false for no patterns; it evaluates exactly up to the first prefix that fixes the verdict. |
| Thresholds.All | pattern/meta.go:51-68 | True exactly when the list is non-empty and every pattern matches. |
| Thresholds.Any | pattern/meta.go:100-118 | True exactly when some pattern matches. |
| Thresholds.DecidesIffSettled | pattern/meta.go:244-250 | The loop's two tests hold exactly when no later outcome can change the verdict. |
| Thresholds.AllAndAnyAreThresholds | pattern/meta.go:42-118 | All is the threshold at the list's length and Any the threshold at one, on empty lists too. |
| Thresholds.EvalWritten | pattern/meta.go:33-257 | Every node of a formula decides what its combinator decides on its operands. |
| Thresholds.PushIsCorrect | pattern/meta.go:33-139 | De Morgan for formulas of any nesting of non-empty lists: negation pushed to the leaves negates the verdict. |
| Thresholds.AtLeastDuality | pattern/meta.go:220-257 | Failing n of m is passing m - n + 1 negated patterns. |
| Thresholds.DeMorganIffNonEmpty | pattern/meta.go:44-65 | On one list De Morgan's laws hold exactly when it is not empty. |
| Phone.IsAllDigits | pattern/regex.go:275-282 | The loop accepts exactly byte strings of digits. |
| Phone.FieldsAreGroups | pattern/regex.go:307-317 | Splitting at spaces and checking the parts accepts exactly digit groups of those widths with single spaces between. |
| Phone.Format2IsShape | pattern/regex.go:257-341 | Format 2 accepts exactly +dd dd ddd dddd and (+dd) dd ddd dddd after trimming. |
| Phone.StripIsFilter | pattern/regex.go:421-428 | Stripping separator runes from ASCII input drops exactly the separator bytes. |
| Phone.Format2IsFormat1Trimmed | pattern/regex.go:205-341 | Whatever Format 2 accepts, Format 1 accepts after trimming. |
| Phone.PhoneIsFormat1Trimmed | pattern/regex.go:184-203 | The whole matcher accepts nothing beyond Format 1 up to surrounding white space. |
| PhoneForms.Format1Exactly | pattern/regex.go:205-253 | On every byte string: separators and ten digits, or separators, a plus, and separators with ten to thirteen digits. |
| PhoneForms.Format2Exactly | pattern/regex.go:257-341 | On every byte string: one of the two templates between any Unicode white space. |
| PhoneForms.PhoneExactly | pattern/regex.go:184-203 | The whole matcher accepts exactly these. |
| Repeating.CountRun | pattern/regex.go:115-123 | The inner loop counts the run of equal digits, comparing each byte of it and the byte that ends it. |
| Repeating.MatchRepeatingNumber | pattern/regex.go:104-132 | True exactly when five consecutive bytes are the same digit, with at most five comparisons for two bytes, reading every byte as often as stated. |
| Repeating.TwiceIffNoPairFollowed | pattern/regex.go:105 | Every byte is read at most twice exactly when, up to the first run of five, no byte follows two equal digits. |
| Repeating.AtMostFiveReads | pattern/regex.go:105 | No byte is read more than five times. |
| Repeating.FiveReads | pattern/regex.go:105 | In 11112 the last byte is read five times. |

## Left out

- ProtocolAnswers.ConcurrentAnswers: does not state that a leader returns the first match in rule order, because the code does not; `ProtocolRace.FirstMatchOrderIff` states exactly when it does.
- ByteAnalyzer.Analyzer.Anonymize: reports entities as a set, because the source lists them in map iteration order, which Go leaves open; the method covers the sequential path over a serial runner, and the pooled path and the concurrent runner are covered by the lemmas of `AnalyzerRuns`.
- ByteAnalyzer.Analyzer.AnonymizeSequential: the method runs over a serial runner; over a concurrent one the same loop's result is `AnalyzerRuns.ConcurrentOutput`.
- ByteAnalyzer.OutputWriter.Write: does not model write errors, which the source logs and ignores.
- Tokenizer.TokenIterator: returns all tokens at once, because both consumers differ only in when they stop; stopping early is the submitted prefix in `TokenPool`.
- Collector.CollectEvaluations: starts after the submissions; submitting and rejection are the protocol's `Submit` and `Reject` steps. What arrives on the channel while the loop waits is given up front, in arrival order.
- The concurrent runner, the coalescer and the pooled path are transition systems over values, so locks, channels and goroutines appear only as the atomic steps they make possible.
- The concurrent runner's `Process`, `classifyRules`, `matchMissing` and `saveNegatives` repeat the serial ones line by line and share their model.
- The internals of `golang.org/x/sync/singleflight` and of the ants pool: replaced by a registry of running flights and a bounded count of busy slots.
- Panics inside matchers or pool tasks, and deadlines other than as cancellation.
- The Valkey client, its client-side cache and time-to-live arithmetic: expiry and failure are steps that may happen at any time.
- In the protocol a flight's published map is a value; that no caller writes into the shared instance is stated on mutable maps by `SerialRunner.SerialRulesRunner.FinishResidual`.
- Logging, tracing, work identifiers, option plumbing, factories, and `StringAnalyzer`, which wraps the byte analyser's parts.
- Regular-expression matchers, `net.ParseIP`, the file-extension table, and the byte-class checks for UUIDs, VINs, cards, e-mail and file names, which would add only easy members. The CNPJ regular expression is replaced by what it means on fourteen cleaned bytes.
- Unicode upper-casing in the alphanumeric CNPJ: bytes outside ASCII are rejected directly, since no upper-cased form of them gives fourteen ASCII bytes.
- Pattern names and the `Equal`, prefix, suffix and case-folding patterns.
