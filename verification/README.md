# AIGW in Dafny

AIGW is an inference gateway that runs inside Envoy. This project models the parts of it that carry algorithms and
proves what they are for. `dafny verify dfyconfig.toml` checks all of it.

| files | what they model |
|---|---|
| `LinearAlgebra`, `ShermanMorrison`, `LeastSquares`, `Regression`, `TrainingOrder` | recursive least squares in any dimension, the regression it solves, and when the order of samples matters |
| `TpotRls`, `TtftRls`, `TpotPredictor` | the unrolled three-coefficient learner, the six-coefficient learner with its loops, and one learner per batch-size segment, as classes that update arrays in place |
| `Text`, `Sse`, `SseMessages`, `Think`, `Choices`, `Grpc`, `Transcoder` | reading a response stream in arbitrary pieces: event-stream messages, gRPC frames, reasoning split off by tags |
| `AsyncQueue` | dispatchers, workers and shutdown callers around a bounded channel and a read/write lock, as interleaved atomic steps |
| `CircuitBreaker`, `StringOrder`, `Discovery` | the breaker of a host, the known hosts, host selection and failover |
| `Ledger`, `LedgerCalls` | when a request's load is added to and deleted from the metadata centre, which may refuse any call |
| `LoadScore`, `InferenceLb` | scoring endpoints, candidates, and the choice of a host |
| `PromptHash`, `RuleConfig`, `MovingAverage` | chained block hashes, header routing, bucketed moving averages |
| `Options`, `Arithmetic` | a value that may be absent, and facts about products |

Objects whose methods change fields or arrays in the original are classes with the same fields. Their methods are
proved against specification functions (`LeastSquares.Run`, `Sse.Feed`, `CircuitBreaker.Next`, `Ledger.Apply`, ...),
and the main theorems are lemmas about those functions over whole histories, streams or runs.

Some conventions:

- float64 is `real`: all arithmetic is exact, and dividing by zero is excluded where the original would go on with
  infinities.
- Byte strings are `string`, one `char` a byte. Trimming knows every white space character in its UTF-8 encoding.
- Clocks, random choices, hash functions, the JSON library, the outcome of requests and the metadata centre's answers
  are parameters or nondeterministic choices, so results hold for all of them.
- Ghost fields `history` record what an object has been fed; `Valid` ties the real fields to them.

Where the code falls short of what one would expect of it, it is proved when it does, exactly unless noted:

- Without thresholds the segment of every batch size is 1 while only one learner exists (`SegmentHasLearnerIff`).
- A read boundary between CR and LF makes a spurious line end (`Sse.ChunkingIrrelevantIff`). The event-stream format
  (section 9.2 of the WHATWG HTML Living Standard) allows CR LF as one line end.
- An empty gRPC frame stops the drain early (`Grpc.DrainCompletesIff`, `Grpc.ChunkingIrrelevantIff`). Length-Prefixed-
  Message, in the "Requests" section of the gRPC over HTTP/2 protocol document, allows empty messages.
- Tags broken across chunks defeat the streaming split (`Think.StreamingAgreesIff`); the code's comment assumes that
  they are not. All choices share one think state, so one can spoil another (`Choices.EveryChoiceAgreesIff` for whole
  streams, `Choices.FirstChunkAgreesIff` for one chunk, and `Choices.SecondChoiceUnsplit` for inputs).
- With a half-open limit below 1 a half-open breaker refuses every request (`HalfOpenNeverStuckIff`).
- A negative MaxRetries, and nothing else, makes a worker drop a task without calling the handler and log success
  (`HandleTask`).
- When all request counts are negative, scores can depend on the counts themselves, not only on their differences
  (`LoadScore.ShiftKeepsScoreIff`, with `ShiftMattersBelowZero` for an input).
- The six-coefficient learner takes any forgetting factor. Above 0 it never divides by zero (`TtftRls.AlwaysLearns`);
  otherwise the exact condition is given for the first update only (`LeastSquares.FirstUpdateDividesByZeroIff`). The
  three-coefficient learner clamps its factor.

The comment of `SortTuples` speaks of gray models and a base model; the code orders by number of headers only, and that
is what is modelled.

## Model

| member | source | states |
|---|---|---|
| `Regression.RunMinimisesCost` | pkg/prediction/rls/rls.go:46-107 | After any history, for any forgetting factor above 0, the coefficients are the one and only minimiser of the discounted ridge regression over that history; every other vector w costs exactly (w-theta)·A(w-theta) more |
| `Regression.CostExcess` | pkg/prediction/rls/rls.go:46-107 | For every x and e: moving from x by e changes the regression cost by exactly the gradient term plus the curvature term of the information matrix. This ties the cost, which never mentions the recursion, to the matrices |
| `Regression.RunCovariance` | pkg/prediction/rls/rls.go:93-106 | After any history P is symmetric, positive definite and the two-sided inverse of the information matrix |
| `Regression.RunNeverDividesByZero` | pkg/prediction/rls/rls.go:72-77 | In every reachable state and for every feature vector the denominator is at least the forgetting factor, so above 0 |
| `Regression.RunShrinksResidual` | pkg/prediction/rls/rls.go:84-91 | Learning a sample multiplies its own residual by exactly forget/denominator: it keeps its sign and never grows |
| `Regression.InformationClosedForm` | pkg/prediction/rls/rls.go:93-106 | The information matrix is, entry by entry, f^n*1e-6*I plus the sum of f^(n-1-i)*phi_i*phi_i^T |
| `Regression.MomentClosedForm` | pkg/prediction/rls/rls.go:84-91 | The right-hand side of the normal equations is f^n*1e-6*theta0 plus the sum of f^(n-1-i)*y_i*phi_i, entry by entry |
| `LeastSquares.Run` | pkg/prediction/rls/rls.go:46-107 | The learner after a history solves the normal equations of that history, with P the inverse of the information matrix |
| `LeastSquares.StepSolves` | pkg/prediction/prediction.go:85-143 | In any dimension, one update takes a learner that solves one regression to one that solves the regression with the sample added |
| `ShermanMorrison.NextInverses` | pkg/prediction/prediction.go:134-142 | The rank-one downdate of P stays the two-sided inverse of the rank-one update of A |
| `TrainingOrder.OrderIrrelevant` | pkg/prediction/prediction.go:24-29 | With forgetting factor 1 all data contribute equally: any permutation of the training samples gives the same coefficients and the same covariance |
| `TrainingOrder.SwapMattersUnlessNoForgetting` | pkg/prediction/prediction.go:24-29 | Swapping the last two samples (same features, not zero, different targets) leaves the coefficients alone if and only if the factor is 1 |
| `TpotRls.StepUnrolled` | pkg/prediction/rls/rls.go:79-106 | The three coefficients and nine entries written out by hand are one step of the general recursion |
| `TpotRls.GainUnrolled` | pkg/prediction/rls/rls.go:67-77 | The hand-written sums PHI0..PHI2 and the denominator are those of the matrix form |
| `TpotRls.FeaturesAreLinear` | pkg/prediction/rls/rls.go:52-56 | The features of [x0, x1] weigh the two inputs and a constant: their product with theta is theta0*x0 + theta1*x1 + theta2 |
| `TpotRls.TpotRecursiveLeastSquares.constructor` | pkg/prediction/rls/rls.go:27-43 | A factor outside (0,1] becomes 1; the new learner has zero coefficients, prior covariance and an empty history |
| `TpotRls.TpotRecursiveLeastSquares.Update` | pkg/prediction/rls/rls.go:46-107 | The arrays overwritten in place stay those of the recursion after the extended history; an input of the wrong length changes nothing |
| `TpotRls.TpotRecursiveLeastSquares.Predict` | pkg/prediction/rls/rls.go:110-116 | theta0*x0 + theta1*x1 + theta2 with the coefficients of the recursion after the history; -1 for an input of the wrong length |
| `TpotRls.TpotRecursiveLeastSquares.Params` | pkg/prediction/rls/rls.go:119-123 | A new array holding the coefficients |
| `TpotRls.TpotRecursiveLeastSquares.Clone` | pkg/prediction/rls/rls.go:126-139 | A learner with the same history and start, sharing no array |
| `TpotRls.TpotRecursiveLeastSquares.WithParams` | pkg/prediction/rls/rls.go:144-166 | Starts from the first three given values, missing ones being zero, with factor 1 |
| `TtftRls.SameAsStep` | pkg/prediction/prediction.go:85-143 | If the six coefficients and thirty-six entries obey the formulas of the loops, the result is one step of the general recursion |
| `TtftRls.ColumnIsRow` | pkg/prediction/prediction.go:89-98 | Summing down the columns of P equals summing along its rows, because P is symmetric |
| `TtftRls.RLS.Train` | pkg/prediction/prediction.go:65-68 | Whenever neither divisor of the update is zero, training extends the history by the polynomial features and the target |
| `TtftRls.RLS.Update` | pkg/prediction/prediction.go:85-143 | For any factor, whenever neither divisor is zero, the loops leave in the arrays exactly what the recursion makes of the extended history |
| `TtftRls.AlwaysLearns` | pkg/prediction/prediction.go:85-143 | With a factor above 0 neither divisor is ever zero, and the arrays are those of LeastSquares.Run, so everything stated for it holds of this code |
| `LeastSquares.ReplayIsRun` | pkg/prediction/prediction.go:85-143 | With a factor above 0 no history makes an update divide by zero |
| `LeastSquares.FirstUpdateDividesByZeroIff` | pkg/prediction/prediction.go:33-48 | The first update divides by zero if and only if the factor is 0 or is minus a million times the squared length of the features |
| `TtftRls.RLS.ComputePhiTP` | pkg/prediction/prediction.go:89-98 | The first loop computes P*phi |
| `TtftRls.RLS.ComputeGain` | pkg/prediction/prediction.go:100-118 | The second loop computes the gain vector of the recursion |
| `TtftRls.RLS.DowndateCovariance` | pkg/prediction/prediction.go:134-142 | The last loop rewrites every entry from its old value, row by row |
| `TtftRls.PredictIsDot` | pkg/prediction/prediction.go:71-82 | What the six features are: their product with the coefficients is the polynomial in input and cached that the code evaluates |
| `TtftRls.RLS.Predict` | pkg/prediction/prediction.go:52-62 | The polynomial as written is the inner product of features and coefficients |
| `TtftRls.RLS.Clone` | pkg/prediction/prediction.go:145-158 | A learner with the same history that shares no array |
| `TtftRls.RLS.Params` | pkg/prediction/prediction.go:160-162 | The live array itself is handed out |
| `TpotPredictor.SegmentHasLearnerIff` | pkg/prediction/tpot_prediction.go:124-132 | The chosen segment has a learner if and only if there is at least one threshold; without one the code would index past the end |
| `TpotPredictor.SegmentsAreIntervals` | pkg/prediction/tpot_prediction.go:124-132 | For ascending thresholds the segments are exactly the half-open intervals between consecutive thresholds |
| `TpotPredictor.ValidateThresh` | pkg/prediction/tpot_prediction.go:44-51 | Accepts exactly the strictly ascending threshold lists |
| `TpotPredictor.TpotPredictionImpl.Segment` | pkg/prediction/tpot_prediction.go:124-133 | The loop finds the first threshold above the batch size |
| `TpotPredictor.TpotPredictionImpl.Train` | pkg/prediction/tpot_prediction.go:136-139 | Only the learner of the sample's segment learns; every learner stays trained on exactly its own part of the history |
| `TpotPredictor.TpotPredictionImpl.Predict` | pkg/prediction/tpot_prediction.go:142-145 | The prediction is w0*batchsize + w1*totalTokenNum + w2, where w is what a single learner makes of the samples of the queried segment alone, and the one and only minimiser of the segment's regression over the raw observations |
| `TpotPredictor.SegmentMinimises` | pkg/prediction/tpot_prediction.go:136-145 | The coefficients behind a segment are the one and only minimiser of the squared errors of w0*batchsize + w1*totalTokenNum + w2 on the segment's observations, plus the ridge term |
| `TpotPredictor.TpotPredictionImpl.Clone` | pkg/prediction/tpot_prediction.go:111-121 | Same history and same coefficients, all objects new |
| `TpotPredictor.TpotPredictionImpl.Params` | pkg/prediction/tpot_prediction.go:102-108 | The coefficients of every learner |
| `TpotPredictor.TpotPredictionImpl.New` | pkg/prediction/tpot_prediction.go:55-72 | Succeeds exactly on ascending thresholds, with one fresh learner more than there are thresholds |
| `TpotPredictor.TpotPredictionImpl.NewWithParams` | pkg/prediction/tpot_prediction.go:78-99 | Succeeds exactly on ascending thresholds; learner i starts from params[i] if given and from zero otherwise |
| `TpotPredictor.CloneIsIndependent` | pkg/prediction/tpot_prediction.go:111-121 | After training a clone and the original differently, each holds exactly its own history |
| `TpotPredictor.Rebuild` | pkg/prediction/tpot_prediction.go:78-108 | A predictor rebuilt from another one's parameters gives the same prediction for every query |
| `Sse.UnifyIsOnePass` | plugins/llmproxy/transcoder/openai/openai.go:289-293 | Replacing CR LF and then CR amounts to one pass over the bytes |
| `Sse.UnifyAppend` | plugins/llmproxy/transcoder/openai/openai.go:289-293 | Unifying two pieces apart and together differ by exactly the LF that a boundary inside a CR LF pair duplicates |
| `Sse.UnifyEachCounts` | plugins/llmproxy/transcoder/openai/openai.go:289-293 | Unifying reads one by one makes exactly one byte too many for every split CR LF pair |
| `Sse.CutAppend` | plugins/llmproxy/transcoder/openai/common.go:118-124 | Cutting the kept remainder together with the next bytes continues where the first cut stopped |
| `Sse.CutJoins` | plugins/llmproxy/transcoder/openai/common.go:118-138 | Messages and remainder, put back together, are the text: nothing is lost or repeated |
| `Sse.FeedAllIsCut` | plugins/llmproxy/transcoder/openai/common.go:110-138 | Any sequence of reads yields the cut of the separately unified reads |
| `Sse.ChunkingIrrelevantIff` | plugins/llmproxy/transcoder/openai/common.go:110-138 | Messages and remainder are those of one single read if and only if no read boundary separates a CR from its LF |
| `SseMessages.ParseAllIsFeedAll` | plugins/llmproxy/transcoder/openai/common.go:126-137 | Parsing reads one after the other gives the payloads of all messages, or the invalid-chunk error exactly when some message is shorter than five bytes |
| `SseMessages.ParsingIgnoresChunking` | plugins/llmproxy/transcoder/openai/common.go:110-142 | Without a split CR LF pair, payloads, remainder and the invalid-chunk error do not depend on how the stream was read |
| `SseMessages.ParsedIsPrintable` | plugins/llmproxy/transcoder/openai/common.go:131-136 | Every parsed payload is trimmed and free of CR and blank lines, whatever the reads |
| `SseMessages.ParseOfRender` | plugins/llmproxy/transcoder/openai/openai.go:295-299 | Printing any such payloads and parsing the result gives them back, with nothing left over |
| `SseMessages.BlankIsOptional` | plugins/llmproxy/transcoder/openai/common.go:126-135 | A message with the five-byte field name parses to its payload, with or without a blank behind it |
| `SseMessages.OneMessageStream` | plugins/llmproxy/transcoder/openai/common.go:126-137 | A single message is an invalid chunk if it is shorter than five bytes, and otherwise gives what follows its fifth byte, trimmed |
| `Trim.TrimSpaceTrims` | plugins/llmproxy/transcoder/openai/common.go:133-133 | Trimming leaves a stretch of the message without white space at either end |
| `Trim.TrimSpaceDropsOnlySpace` | plugins/llmproxy/transcoder/openai/common.go:133-133 | Trimming drops whole white space characters from both ends and nothing else |
| `Think.EndTagAfterStartTag` | plugins/llmproxy/transcoder/openai/openai.go:189-201 | An end tag cannot begin inside the start tag, so all slices are in bounds |
| `Think.ExtractTakesApart` | plugins/llmproxy/transcoder/openai/openai.go:189-201 | A reasoning block and a rest come apart again, a block that is never closed is all reasoning, and any other text is all content |
| `Think.StreamedThinking` | plugins/llmproxy/transcoder/openai/openai.go:203-248 | Inside reasoning, streaming splits at the first end tag if one chunk holds it, and later than that if not |
| `Think.StreamingAgreesIff` | plugins/llmproxy/transcoder/openai/openai.go:189-248 | Over any chunking, contents and reasonings emitted add up to the whole-text split if and only if no chunk boundary breaks the leading start tag or the first end tag after it |
| `Grpc.FrameRoundTripIff` | plugins/llmproxy/transcoder/openai/common.go:46-65 | A written frame followed by anything reads back as its payload and the rest if and only if the payload is shorter than 2^32 bytes |
| `Grpc.BigEndian` | plugins/llmproxy/transcoder/openai/common.go:46-58 | A frame is as long as the base-256 number of the four bytes after the flag says, most significant digit first |
| `Grpc.DrainCompletesIff` | plugins/llmproxy/transcoder/openai/openai.go:173-177 | Draining leaves no complete frame behind if and only if no empty frame is followed by another complete one |
| `Grpc.DrainAppend` | plugins/llmproxy/transcoder/openai/openai.go:166-184 | As long as no empty frame is followed by another complete one, draining the remainder together with the next bytes continues where the first drain stopped |
| `Grpc.ChunkingIrrelevantIff` | plugins/llmproxy/transcoder/openai/openai.go:166-184 | However the bytes are cut into reads, payloads and remainder are those of one read, if and only if no empty frame is followed by another complete one |
| `Grpc.DrainOfFrames` | plugins/llmproxy/transcoder/openai/openai.go:173-184 | From written frames and an incomplete tail, exactly the payloads before the first empty frame come out, in order, and exactly what follows it stays |
| `Transcoder.SetGrpcHeader` | plugins/llmproxy/transcoder/openai/common.go:60-65 | Writes a header that reads back as the size modulo 2^32, and touches nothing else |
| `Transcoder.OpenAiTranscoder.FrameRemainBuf` | plugins/llmproxy/transcoder/openai/common.go:46-58 | Takes the first complete frame off the buffer, or leaves the buffer alone |
| `Transcoder.OpenAiTranscoder.DrainFrames` | plugins/llmproxy/transcoder/openai/openai.go:166-184 | The loop terminates and takes off exactly the drained payloads |
| `Transcoder.OpenAiTranscoder.ResponseMessages` | plugins/llmproxy/transcoder/openai/common.go:110-142 | In stream mode, the payloads of all complete messages, the partial one being kept; otherwise the whole buffer |
| `Transcoder.OpenAiTranscoder.ExtractReasoningContentFromChunk` | plugins/llmproxy/transcoder/openai/openai.go:203-248 | One chunk's contribution and the two flags, as in the specified state machine |
| `Transcoder.OpenAiTranscoder.ConvertChunk` | plugins/llmproxy/transcoder/openai/openai.go:265-280 | All choices of a chunk are split in order over one shared think state |
| `Transcoder.OpenAiTranscoder.ConvertOpenAiResp` | plugins/llmproxy/transcoder/openai/openai.go:301-365 | One read: new remainder, message count, think state and output or error, as specified on message lists |
| `Transcoder.UnsplitStream` | plugins/llmproxy/transcoder/openai/openai.go:317-365 | With splitting off, the concatenated output is the parsed payloads printed in order |
| `Transcoder.OutputParsesBack` | plugins/llmproxy/transcoder/openai/openai.go:317-365 | With splitting off and no error in the first message, the output parses back to exactly the payloads parsed from the input |
| `Transcoder.StreamIsConversion` | plugins/llmproxy/transcoder/openai/openai.go:301-365 | Over any reads, the result of a stream is the conversion of the list of parsed payloads, first-message errors included |
| `Transcoder.FirstMessageErrorIff` | plugins/llmproxy/transcoder/openai/openai.go:354-357 | Over any reads and with splitting on or off, a stream ends with a first-message error if and only if its first payload is neither [DONE] nor a chunk and decodes as that error |
| `Transcoder.LaterMessagesNeverAbort` | plugins/llmproxy/transcoder/openai/openai.go:345-365 | After the first message no message ends the stream with an error |
| `Transcoder.OutputIgnoresChunking` | plugins/llmproxy/transcoder/openai/openai.go:301-365 | With splitting on or off, for any choices and also for a first-message error: without a split CR LF pair the result does not depend on the reads; with an invalid chunk in the stream it is a failure either way |
| `Choices.ReasoningStreamIff` | plugins/llmproxy/transcoder/openai/openai.go:203-280 | The deltas of one choice on their own add up to the whole-text split if and only if no chunk boundary breaks a tag that matters |
| `Choices.EveryChoiceAgreesIff` | plugins/llmproxy/transcoder/openai/openai.go:203-280 | For any number of choices interleaved over any chunks, when the backend sends no reasoning of its own: every choice receives the whole-text split of its own text if and only if the first choice to speak keeps its tags whole, nobody else speaks before its end tag if it starts with the start tag, and no other choice's text starts with the start tag |
| `Choices.SingleChoiceSeparableIff` | plugins/llmproxy/transcoder/openai/openai.go:203-280 | With a single choice that condition says that the tags are whole |
| `Choices.FirstChunkAgreesIff` | plugins/llmproxy/transcoder/openai/openai.go:272-278 | In the first chunk every choice gets its whole-text split if and only if after the first text no other starts with the start tag, and none follows at all if the first opens reasoning without closing it |
| `Choices.OwnReasoningPasses` | plugins/llmproxy/transcoder/openai/openai.go:272-278 | A delta with reasoning of its own, or without content, passes as it is, and all others are converted as if it were not there |
| `Transcoder.SplitRenders` | plugins/llmproxy/transcoder/openai/openai.go:317-365 | With splitting on, a list of messages with any number of choices is printed as the same messages with their deltas replaced by the split ones, one think state running through |
| `Transcoder.SplitStreamIff` | plugins/llmproxy/transcoder/openai/openai.go:203-365 | The same over a whole stream of reads whose first message is no error; and, when the backend sends no reasoning of its own, every choice so receives the whole-text split of its own text if and only if the choices are separable |
| `Choices.SecondChoiceUnsplit` | plugins/llmproxy/transcoder/openai/openai.go:272-278 | Inputs for which that fails: of two choices that each carry a whole reasoning block, only the first one is split |
| `AsyncQueue.StepKeepsInv` | pkg/async_request/async_request.go:77-159 | Every atomic step of any dispatcher, worker or shutdown caller keeps locking, closing order, conservation and retry bounds |
| `AsyncQueue.QueueIsSafe` | pkg/async_request/async_request.go:77-125 | Over every interleaving: accepted tasks equal queued plus in-flight plus finished ones as multisets; the queue stays within its size; a finished task ended at its first success or after exactly MaxRetries+1 failures; no send on the closed channel, no zero task, no cancelled branch ever |
| `AsyncQueue.DispatchQueues` | pkg/async_request/async_request.go:77-92 | A dispatch that finds the queue open and with room puts its task, a zero timeout replaced by the default one, behind the queued ones and changes nothing else |
| `AsyncQueue.DispatchRefused` | pkg/async_request/async_request.go:81-97 | A dispatch that finds the queue closed or full changes nothing, and a full queue cannot be sent to |
| `AsyncQueue.FirstInFirstOut` | pkg/async_request/async_request.go:90-105 | Over every run, what was queued and what is sent comes out in that very order, the rest still lying in the queue; and the accepted tasks are exactly those sent or handed over |
| `AsyncQueue.WorkerServes` | pkg/async_request/async_request.go:103-119 | A waiting worker takes the oldest queued task and finishes it with any outcomes that end at the first success or after all allowed attempts |
| `AsyncQueue.CompleteExactly` | pkg/async_request/async_request.go:108-118 | Those outcomes are failures up to a first success, or exactly MaxRetries+1 failures |
| `AsyncQueue.ShutdownBegins` | pkg/async_request/async_request.go:147-158 | A shutdown that finds the queue open closes it, cancels the context and waits; one that finds it closed changes nothing |
| `AsyncQueue.ShutdownEnds` | pkg/async_request/async_request.go:157-159 | Once all workers have exited, the waiting shutdown closes the channel and returns |
| `AsyncQueue.ShutdownLeavesOnlyTheQueue` | pkg/async_request/async_request.go:147-159 | After the channel is closed nothing is in flight and nothing more can be sent or received; what was accepted has finished or lies in the queue |
| `AsyncQueue.WaitingStepDecreases` | pkg/async_request/async_request.go:147-159 | While a shutdown waits, every step is a worker's and uses up some of a finite amount |
| `AsyncQueue.WaitingCanMove` | pkg/async_request/async_request.go:147-159 | A waiting shutdown is never deadlocked: some worker can attempt, finish or exit, and once all have exited the shutdown itself can go on |
| `AsyncQueue.WaitingIsBounded` | pkg/async_request/async_request.go:147-159 | Every run in which a shutdown keeps waiting is bounded, whatever the scheduler and the handlers do |
| `AsyncQueue.HandleTask` | pkg/async_request/async_request.go:108-119 | The retry loop calls the handler until its first success or MaxRetries+1 failures, and reports failure exactly in the latter case; it never calls the handler, and so ends with neither a failure nor a success, if and only if MaxRetries is negative |
| `CircuitBreaker.CountersMeanHistory` | pkg/circuitbreaker/circuit_breaker.go:53-117 | For every history and any limits, mode, counters and last failure time are functions of the events: consecutive failures, successes of the half-open phase, the last reported failure |
| `CircuitBreaker.TransitionsExact` | pkg/circuitbreaker/circuit_breaker.go:72-106 | With limits of at least 1: closed opens exactly on MaxFailures consecutive failures, half-open closes exactly on the last of HalfOpenRequests successes, and any half-open failure reopens |
| `CircuitBreaker.RefusesExactly` | pkg/circuitbreaker/circuit_breaker.go:53-70 | For any limits, Allow says no if and only if the breaker is open and within the cooldown of the last reported failure, or half-open with a half-open limit below 1 |
| `CircuitBreaker.HalfOpenNeverStuckIff` | pkg/circuitbreaker/circuit_breaker.go:53-70 | Half-open never refuses a request, in any reachable state, if and only if the half-open limit is at least 1 |
| `CircuitBreaker.OpenRecovers` | pkg/circuitbreaker/circuit_breaker.go:53-86 | With a half-open limit of at least 1: from any reachable open state, one Allow after the cooldown and HalfOpenRequests successes close the breaker |
| `CircuitBreaker.CountingCircuitBreaker.Allow` | pkg/circuitbreaker/circuit_breaker.go:53-70 | Answer and new state of one Allow |
| `CircuitBreaker.CountingCircuitBreaker.RecordSuccess` | pkg/circuitbreaker/circuit_breaker.go:72-86 | New state after a reported success |
| `CircuitBreaker.CountingCircuitBreaker.RecordFailure` | pkg/circuitbreaker/circuit_breaker.go:88-106 | New state after a reported failure |
| `Discovery.ServiceDiscovery.DnsLookUp` | pkg/metadata_center/servicediscovery/service_discovery.go:134-177 | After a successful lookup exactly the resolved hosts are known; survivors keep breaker object, breaker state and age, new hosts start closed; a failed lookup changes nothing |
| `Discovery.ServiceDiscovery.GetAvailableHosts` | pkg/metadata_center/servicediscovery/service_discovery.go:179-209 | Without repetition, the warm hosts whose breakers allow, or all allowed hosts when none is warm; every breaker is asked exactly once |
| `Discovery.AvailableByAge` | pkg/metadata_center/servicediscovery/service_discovery.go:186-208 | In times: with a positive delay, when some allowed host was discovered at least that long ago, the hosts offered are exactly the allowed ones that old; otherwise they are all allowed hosts |
| `Discovery.WarmStaysWarm` | pkg/metadata_center/servicediscovery/service_discovery.go:194-199 | A host that was discovered long enough ago is offered at any later time its breaker allows it |
| `Discovery.ServiceDiscovery.GetHosts` | pkg/metadata_center/servicediscovery/service_discovery.go:211-230 | The stretch of the one sorted listing of the available hosts that starts at the hash index |
| `Discovery.WindowDistinct` | pkg/metadata_center/servicediscovery/service_discovery.go:221-227 | Consecutive positions of the ring, wrapping around, never repeat a host |
| `Discovery.SelectionDistinct` | pkg/metadata_center/servicediscovery/service_discovery.go:211-230 | min(num, available) distinct hosts, all available |
| `Discovery.SelectionAt` | pkg/metadata_center/servicediscovery/service_discovery.go:221-227 | Entry i of the selection is the entry of the sorted listing at the hash plus i, wrapping around |
| `StringOrder.LessIff` | pkg/metadata_center/servicediscovery/service_discovery.go:220-221 | The order of the listing is byte-wise: the first difference decides, and a proper prefix comes first |
| `Discovery.SelectionIgnoresOrder` | pkg/metadata_center/servicediscovery/service_discovery.go:186-203 | The selection depends on the set of available hosts only, not on the map's iteration order |
| `Discovery.ServiceDiscovery.ReportSuccess` | pkg/metadata_center/servicediscovery/service_discovery.go:242-246 | Only the named host's breaker sees the success; an unknown host changes nothing |
| `Discovery.ServiceDiscovery.ReportFailure` | pkg/metadata_center/servicediscovery/service_discovery.go:248-252 | Only the named host's breaker sees the failure; an unknown host changes nothing |
| `Discovery.ServiceDiscovery.DoRequestWithRetry` | pkg/metadata_center/metadata_center.go:357-381 | Candidates are tried in order up to the first success; each tried host has exactly one outcome reported, every other host none |
| `Discovery.ReportedOutcome` | pkg/metadata_center/metadata_center.go:366-379 | What a tried host's breaker is told: a success clears the failures of a closed breaker and never opens one, a failure counts, carries the time and reopens a half-open one; an untried host is told nothing |
| `Ledger.Filter.Add` | plugins/llmproxy/metadata_center.go:39-64 | Sends the add under the request's identifier; records it and arms the timer of a non-stream request exactly when it was accepted |
| `Ledger.Filter.DeletePrompt` | plugins/llmproxy/metadata_center.go:93-117 | Sends a prompt delete only for a recorded request whose prompt is not yet deleted, disarms the timer, and sets the flag exactly when accepted |
| `Ledger.Filter.Decrease` | plugins/llmproxy/metadata_center.go:66-80 | Disarms the timer and sends the delete under the request's identifier |
| `Ledger.Filter.UniqueId` | plugins/llmproxy/metadata_center.go:31-37 | The identifier is drawn once and then kept |
| `Ledger.Filter.Callback` | plugins/llmproxy/filter.go:275-405 | Fields and calls sent by any callback are those of the specification function |
| `Ledger.ApplyKeepsShape` | plugins/llmproxy/metadata_center.go:39-117 | Every callback keeps the flags in step with the calls sent so far |
| `Ledger.RequestLife` | plugins/llmproxy/metadata_center.go:39-117 | For any interleaving of any number of requests and any refusals: no delete without an accepted add; the accepted add comes first; at most one prompt delete is accepted and none follows it; the delete is the last call and is sent exactly when a recorded request is logged; no timer is armed after that; no other request's calls carry the same identifier |
| `Ledger.LoadBalance` | plugins/llmproxy/filter.go:357-365 | In every reachable state accepted adds minus accepted deletes equals the live recorded requests plus the refused deletes |
| `LedgerCalls.CallsExactly` | plugins/llmproxy/metadata_center.go:39-117 | In every run a request's calls are exactly those its own events ask for: the add at the decode, then a prompt delete at the first token, every response and every timer up to the first accepted one, then the delete at the log callback, each with the request's identifier and the centre's answer |
| `LedgerCalls.RunIsReplay` | plugins/llmproxy/filter.go:275-405 | The requests of a run do not interfere: each one's fields and calls are those of its own events alone |
| `LedgerCalls.PromptDeleteIsSent` | plugins/llmproxy/filter.go:398-405 | In every run, once a response, a timer or the first token has followed an accepted add, a prompt delete has been sent |
| `LedgerCalls.TimerArmedIff` | plugins/llmproxy/metadata_center.go:55-63 | In every run, a timer is armed if and only if an accepted add of a non-stream request is all that was sent for it: no prompt delete attempted, not yet logged |
| `LoadScore.SpreadUnique` | pkg/aigateway/loadbalancer/inferencelb/inference_lb.go:325-347 | The bounds a cluster is scored against are determined by its load |
| `LoadScore.FindSpread` | pkg/aigateway/loadbalancer/inferencelb/inference_lb.go:325-347 | The loop finds the tight bounds: the larger of 0 and all queues, the smallest queue or 0 when nothing is reported, the longest prompt but at least 1024 |
| `LoadScore.LoadsAreFractions` | pkg/aigateway/loadbalancer/inferencelb/inference_lb.go:368-376 | Request load and prefill load of every endpoint lie between 0 and 1 |
| `LoadScore.BetterNeverScoresLower` | pkg/aigateway/loadbalancer/inferencelb/inference_lb.go:349-379 | With non-negative weights, an endpoint with no more requests, no longer prompts and no lower cache rate never scores lower |
| `LoadScore.PriceOfARequest` | pkg/aigateway/loadbalancer/inferencelb/inference_lb.go:348-352 | One more queued request costs between a fifth and a half of the configured weight, however the queues are spread |
| `LoadScore.ScoreDifference` | pkg/aigateway/loadbalancer/inferencelb/inference_lb.go:346-379 | What two endpoints' scores differ by, exactly: cache weight times the difference in rate, request weight times k/range for every request with k a fifth of the range rounded up, prefill weight over the longest prompt for every unit of prompt length |
| `LoadScore.ScoreOrigin` | pkg/aigateway/loadbalancer/inferencelb/inference_lb.go:368-379 | An endpoint with the smallest queue and no prompts scores what its cache rate is worth; one without statistics loses the whole request weight besides |
| `LoadScore.ShiftKeepsScoreIff` | pkg/aigateway/loadbalancer/inferencelb/inference_lb.go:325-383 | For every load, shift and endpoint: adding one constant to all request counts keeps the score if and only if requests carry no weight, or the endpoint has the smallest queue, or ceil(range/5) over range is the same before and after; without statistics, if and only if the weight is zero or ceil(range/5) is the same |
| `LoadScore.ShiftedSpread` | pkg/aigateway/loadbalancer/inferencelb/inference_lb.go:326-344 | How a shift moves the bounds those ranges are made of: smallest queue and longest prompt follow, the largest queue follows only down to 0 |
| `LoadScore.ShiftChangesNoScore` | pkg/aigateway/loadbalancer/inferencelb/inference_lb.go:325-383 | So no score changes as long as some count is 0 or more both before and after |
| `LoadScore.ShiftMattersBelowZero` | pkg/aigateway/loadbalancer/inferencelb/inference_lb.go:326-341 | An input for which the condition fails: two negative counts whose common shift changes a score |
| `InferenceLb.QueryLoad` | pkg/metadata_center/metadata_center.go:307-322 | The report holds exactly the listed addresses, the last entry of each counting, with negative prompt lengths read as 0 |
| `InferenceLb.HostLoadsAreFractions` | pkg/aigateway/loadbalancer/inferencelb/inference_lb.go:368-376 | With any report the query produces, both loads of every host lie between 0 and 1 |
| `InferenceLb.HostScoreDifference` | pkg/aigateway/loadbalancer/inferencelb/inference_lb.go:360-379 | The exact difference of two reported hosts' scores in the reported numbers and cached rates |
| `InferenceLb.HostBounds` | pkg/aigateway/loadbalancer/inferencelb/inference_lb.go:325-344 | The bounds of a cluster in the reported numbers: they hold for every host and some host has them, an unknown host counting as idle |
| `InferenceLb.UnknownLooksIdle` | pkg/aigateway/loadbalancer/inferencelb/inference_lb.go:259-272 | With non-negative weights no host without cached blocks scores higher than one the metadata centre knows nothing about |
| `InferenceLb.EligibleExact` | pkg/aigateway/loadbalancer/inferencelb/inference_lb.go:167-184 | The eligible hosts are exactly the hosts whose labels, a missing one reading as empty, agree with the selector |
| `InferenceLb.EligibleInLabels` | pkg/aigateway/loadbalancer/inferencelb/inference_lb.go:167-184 | The same spelled out in labels |
| `InferenceLb.FilterHostsBySelector` | pkg/aigateway/loadbalancer/inferencelb/inference_lb.go:167-184 | The loops compute the eligible hosts in their order |
| `InferenceLb.CandidateNumBounds` | pkg/aigateway/loadbalancer/inferencelb/inference_lb.go:138-143 | For every percentage, negative or above 100 included, at least one and at most all hosts, and otherwise the largest number within the percentage |
| `InferenceLb.MergeCacheStats` | pkg/aigateway/loadbalancer/inferencelb/inference_lb.go:325-383 | Every wrapper is overwritten with the loads, rate and score the cluster's bounds prescribe |
| `InferenceLb.SortByScore` | pkg/aigateway/loadbalancer/inferencelb/inference_lb.go:191-194 | Descending scores, nothing lost: all that is used of the library's sort |
| `InferenceLb.GetCandidateByStats` | pkg/aigateway/loadbalancer/inferencelb/inference_lb.go:386-426 | Without load statistics all hosts; with them, the first candNum hosts of some ordering by score of the given hosts |
| `InferenceLb.CandidatesAreTheBest` | pkg/aigateway/loadbalancer/inferencelb/inference_lb.go:386-426 | Fewer than candNum hosts score strictly higher than any of the first candNum, whatever ordering by score |
| `InferenceLb.TiesDoNotMatter` | pkg/aigateway/loadbalancer/inferencelb/inference_lb.go:405-405 | However the unstable sort breaks ties, the score at every position is the same |
| `InferenceLb.ChooseHost` | pkg/aigateway/loadbalancer/inferencelb/inference_lb.go:86-110 | The chosen host matches the selector; none is chosen exactly when nothing matches; with load statistics fewer than candNum eligible hosts score strictly higher |
| `PromptHash.PromptToHash` | plugins/llmproxy/cache_hash.go:43-70 | The loop, its short cut for a single block included, computes the chain of block hashes |
| `PromptHash.ChainEntry` | plugins/llmproxy/cache_hash.go:59-67 | Entry i of the chain is the hash of everything up to the end of block i, the last one of the whole prompt |
| `PromptHash.ChainCovers` | plugins/llmproxy/cache_hash.go:49-49 | There are enough blocks to cover the prompt, and not one more |
| `PromptHash.SharedBlocksAgree` | plugins/llmproxy/cache_hash.go:59-67 | Two prompts agree on the hashes of all blocks inside their common prefix, whatever the hash function |
| `PromptHash.SharedHashes` | plugins/llmproxy/cache_hash.go:59-67 | Without collisions among their beginnings, two different prompts share exactly floor(common prefix / block length) leading hashes |
| `PromptHash.ContinuationKeepsHashes` | plugins/llmproxy/cache_hash.go:59-67 | A continued prompt keeps the hashes of all its full blocks |
| `RuleConfig.ValidateRules` | plugins/llmproxy/config/config.go:128-150 | Succeeds exactly when all rules name one cluster and, an empty one meaning triton, one backend; then every rule carries that backend; nothing but empty backends ever changes |
| `RuleConfig.SortTuples` | plugins/llmproxy/config/config.go:38-42 | In place: most headers first, nothing lost |
| `RuleConfig.BuildModelMappings` | plugins/llmproxy/config/config.go:57-77 | Exactly the models with rules are mapped, each to a sorted permutation of its rules |
| `RuleConfig.GetCandidateRule` | plugins/llmproxy/config/config.go:200-225 | The first matching rule, none exactly when none matches; on a sorted list a matching rule with the most headers; the single-rule short cut agrees |
| `RuleConfig.AllMatchedIff` | plugins/llmproxy/config/config.go:212-218 | A rule matches if and only if its headers are among those of the request |
| `RuleConfig.TiesOnly` | plugins/llmproxy/config/config.go:38-42 | Whatever order the unstable sort gives ties, the chosen rules have equally many headers, and are the same rule when only one matching rule has that many |
| `RuleConfig.Route` | plugins/llmproxy/transcoder/openai/openai.go:108-118 | From the configured rules: the request's rule matches and no matching rule of the model has more headers; none exactly when none matches or the model is unknown |
| `MovingAverage.AverageWithinSamples` | pkg/metrics_stats/ttft.go:75-80 | The moving average, and its truncation, stay between the smallest and the largest sample |
| `MovingAverage.AverageZeroIff` | pkg/metrics_stats/ttft.go:75-76 | For positive samples an average of 0 means exactly that there is no sample, which is how the code tells |
| `MovingAverage.PastFades` | pkg/metrics_stats/ttft.go:79-79 | Two different pasts followed by the same samples give averages whose difference is multiplied by 0.9 for each of them |
| `MovingAverage.BucketHolds` | pkg/metrics_stats/ttft.go:65-68 | The index is in range and names the length's whole kilobyte, the last bucket taking everything longer |
| `MovingAverage.ModelTTFT.RecordTTFT` | pkg/metrics_stats/ttft.go:70-81 | Every bucket stays the moving average of exactly the samples that fell into it |
| `MovingAverage.ModelTTFT.MatchTTFT` | pkg/metrics_stats/ttft.go:83-92 | The truncated average of the nearest non-empty bucket at or below the query's, or 500 if there is none |
| `MovingAverage.PredictionWithinSamples` | pkg/metrics_stats/ttft.go:83-92 | With any sample at or below the query's bucket, the answer lies between the fastest and the slowest such sample |
| `MovingAverage.NearestBucketDecides` | pkg/metrics_stats/ttft.go:83-92 | The nearest bucket with samples at or below decides alone: the answer lies between its fastest and its slowest sample |
| `MovingAverage.NothingBelow` | pkg/metrics_stats/ttft.go:83-92 | Without a sample at or below the query's bucket the answer is 500 |
| `MovingAverage.Models.RecordTTFT` | pkg/metrics_stats/stats.go:40-51 | Invalid samples are ignored; a valid one extends the history of its own model only |
| `MovingAverage.Models.MatchTTFT` | pkg/metrics_stats/stats.go:29-38 | 500 for an invalid query or unknown model, otherwise what the model's history predicts |

## Left out

- Floating-point rounding, NaN and overflow: all arithmetic is over exact reals and unbounded integers; sizes and counts are assumed to fit the 64-bit integers of the original.
- TtftRls.RLS.Train and TtftRls.RLS.Update: an update that would divide by zero is excluded; the original goes on with infinities or NaN. For a negative factor the arrays follow the recursion, but nothing is claimed about what that recursion minimises.
- TtftRls.RLS.Params: states that the live array is handed out; what a caller then does to it is not modelled.
- TpotPredictor.TpotPredictionImpl.Train: an empty threshold list is excluded, because the original then indexes past its learners and panics.
- TpotRls.TpotRecursiveLeastSquares.Update and TtftRls.RLS.Update: long bodies are divided into methods of their own (`Store`, `StoreCovariance`, `ComputePhiTP`, `ComputeGain`, `ComputeError`, `Correct`, `DowndateCovariance`); sums written out by hand are calls of named sum functions.
- Growable slices are values of type `seq`, so spare capacity and aliasing between slices of one array are not modelled; learner arrays, wrappers, breakers and rules keep their identity.
- Transcoder.OpenAiTranscoder.ConvertOpenAiResp: the non-stream branch (one JSON document decoded and encoded again), model-name rewriting, log items and metrics.
- Transcoder.OpenAiTranscoder.DrainFrames: the frames' Triton decoding, whose output the original never assigns; the payloads taken off are recorded in ghost state instead.
- Transcoder.SetGrpcHeader: the rest of request encoding (path, headers, protobuf marshalling).
- JSON, protobuf, murmur3, FNV and UUID internals: decoding and hashing are arbitrary functions, identifiers are assumed never to repeat.
- Choices.EveryChoiceAgreesIff and Transcoder.SplitStreamIff: a delta that carries reasoning of its own is passed on untouched by the original; streams that mix both kinds are not compared with the whole-text split.
- AsyncQueue.QueueIsSafe: a send with a waiting receiver may be refused as "full" in the model where the original's select would deliver it; the pauses between attempts and the log entries are left out.
- AsyncQueue.WaitingIsBounded: assumes that handlers return; a handler that hangs keeps its worker and the shutdown waiting.
- AsyncQueue.ShutdownLeavesOnlyTheQueue: tasks still queued at shutdown stay there; the original drops them too.
- CircuitBreaker.RefusesExactly: half-open limits successes, not concurrent probes; every request is let through while half-open.
- Discovery.ServiceDiscovery.GetHosts: one time per call stands for the clock readings of one call; calls are atomic, though the original releases its lock between reading the map and sorting.
- Discovery.ServiceDiscovery.DoRequestWithRetry: the whole failover of one request happens at one time, without other requests in between.
- The DNS loop, static hosts, HTTP, timeouts, Prometheus and access-log fields: only outcomes are modelled.
- Ledger.RequestLife: callbacks of one request are atomic; the original does not synchronise the timer goroutine with the filter's flags. Every refusal is possible at every call.
- Ledger.LoadBalance: counts calls, not hosts; deletes are dispatched with an empty hash key, so nothing is claimed about add and delete reaching the same host.
- The order of callbacks (one decode first, none after the log callback) is taken from Envoy and enforced in `Ledger.Enabled`.
- InferenceLb.SortByScore and RuleConfig.SortTuples: insertion sorts stand for the library's sorts; only order and permutation are used, so ties may fall anywhere.
- InferenceLb.ChooseHost: the random pick is an arbitrary index; load and cache queries are parameters, a missing report being a failed query or one that is switched off; a failed cache query is an empty cache map, which the original treats alike.
- LoadScore.FindSpread: the start value of the minimum is an absent value instead of the largest float64, which no count reaches.
- RuleConfig.Route: a gateway without any configured rules skips routing; that case is not part of the model.
- RuleConfig.ValidateRules: error messages are not modelled, only failure.
- MovingAverage.Models.RecordTTFT: the switch that selects between this average and the learners is fixed to the average; concurrent use of the map is not modelled.
- Cluster manager, CDS server, static provider, visual-language messages, error codes and environment parsing: plumbing without hard properties.
