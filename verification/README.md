# Restlytics Go SDK: a verified model

This project models the core of the Restlytics Go SDK in Dafny and proves what the SDK promises about it:

- **Delivery** (`transport.go`). `Transport.dfy` is a step system: every atomic, lock and channel operation of
  `enqueue`, `Flush`, `Shutdown`, `shutdownExporter` and the worker `run` is a step of its own, and any number of
  calls may be in progress. On it stand an inductive invariant (`TransportInvariant.dfy`), safety over whole runs
  (`TransportSafety.dfy`), an exact count of the worker's steps and the exact condition under which a shutdown can
  succeed (`TransportProgress.dfy`), what the outcomes of exports and hooks in a run become
  (`TransportOutcomes.dfy`), a ranking of every call (`TransportReturn.dfy`), on which stands that every
  shutdown returns under every fair schedule (`TransportFair.dfy`), and a refinement to an atomic bounded FIFO
  (`TransportRefinement.dfy`). `TransportObject.dfy` is the same transport as an object, for calls that are not
  disturbed.
- **Self-time** (`intervals.go`, `attachSelfTime` in `tracer.go`). `Intervals.dfy` proves the copy, sort and sweep
  of `UnionLength`, in int64, against the number of nanoseconds covered; `InvertedIntervals.dfy` says exactly when
  intervals that end before they start do no harm; `SelfTime.dfy` shows that the five category numbers account for
  the root's duration.
- **SQL templates** (`sql.go`). `Sql.dfy` has a matcher for each of the regular expressions and the passes in their
  order. `SqlPatterns.dfy` writes the expressions down and gives them their meaning by a backtracking search;
  `SqlMatching.dfy` proves that the matchers find what the search finds. `SqlTemplate.dfy` proves that later passes
  keep what earlier ones establish, and `SqlNoLists.dfy` that nothing is left to collapse. The relational proofs run
  over all passes: `SqlApostrophes.dfy` (on `SqlLiterals.dfy`), `SqlNumerals.dfy` and `SqlPlaceholders.dfy` show that
  literals and placeholders of every kind are read as `?`, `SqlGrouping.dfy` that queries which differ only in a
  number share one template, and `SqlLists.dfy`, `SqlCollapse.dfy`, `SqlRows.dfy`, `SqlInLists.dfy` and
  `SqlValueLists.dfy` that those which differ only in a value list do. Three modules give the exact conditions of what
  goes wrong: `SqlApostrophes.dfy` for an apostrophe in a double-quoted name, `SqlPadded.dfy` for blanks around a lone
  value, and `SqlSecondRun.dfy` (with `SqlLeftQuotes.dfy`, `SqlHexWords.dfy` and, for single words, `SqlWords.dfy`)
  for a second run that changes a template. `SqlBlocks.dfy` and `SqlChars.dfy` are what they have in common.
- **Logs** (`logs.go`). `LogText.dfy` cuts text without cutting a UTF-8 character (`LogScalars.dfy`: one that encodes
  a Unicode scalar value), `LogAttributes.dfy` flattens attributes through one accumulator, `LogRecords.dfy` says what
  a record carries and `LogValues.dfy` with which values.
- **Spans and traces** (`span.go`, `tracer.go`, `ids.go`, `background.go`, `outbound_http.go`). `Span.dfy`,
  `Tracer.dfy`, `TraceContext.dfy`, `Sampling.dfy`, `Propagation.dfy`, with the keys that are held back in
  `Attributes.dfy` and, told by the letters of a key, in `SensitiveKeys.dfy`.

Some modelling decisions:

- `managedExporter` is the general machine. `HTTPTransport` is the same one without hooks and without the early
  look at `stopped` (`Transport.HttpConfig`). Its empty key is `usable == false`, an empty url is a batch that is
  not `routable`. The end of a context, the outcome of an export and the outcome of a hook are the `choice` of a
  step. A send to a waiting receiver is a push followed by a receive.
- A schedule is fair when an actor that could step for ever is not left out for ever, and when the mutex, which becomes
  free again and again, does not pass one waiting caller over for ever, as Go's `sync.Mutex` promises.
- A Go string is a sequence of bytes, one `char` each. Case folding, blanks and word characters are those of ASCII.
- Go's regular expressions choose the match a backtracking search would have found first, as the documentation of
  its `regexp` package says; that search is written out in `SqlPatterns.Search`. `ReplaceAllString` replaces the
  leftmost matches that do not overlap, and `\b` looks at the original text.
- int64 arithmetic on timestamps wraps around (`Intervals.Wrap64`). Random ids are parameters, valid and not zero.

Findings, each with its proof:

- A single apostrophe in a double-quoted name lets the next literal through: the template of `"'"'x'` is `"?x'`
  (`SqlApostrophes.ApostropheInName`). `SqlApostrophes.HolesIffApostrophesPair` says when the promise is kept.
- `Normalize` is not idempotent: `0X1F` becomes `0x1f` and then `?`, and a backslash before a line feed inside quotes
  becomes a backslash before a space. `SqlSecondRun.SecondRunIff` is the exact condition.
- `( 1 )` keeps its blanks and does not group with `(1)` (`SqlPadded.PaddedValueAlone`), except behind IN and next to
  another row (`SqlPadded.PaddedIff`).
- A handler's group also covers the attributes that were added before it, against the rule of `slog`
  (`LogRecords.GroupAfterAttribute`); `LogRecords.SlogRuleIff` says when the rule is kept.
- The list of keys that `IsSensitiveAttributeKey` lets through by name decides nothing
  (`Attributes.ExemptListIsIdle`).
- `Enqueue` does not look at `enabled`, so a disabled service in a chain of queued jobs hands on a trace with the
  sampled flag cleared (`Propagation.DisabledServiceBetween`); `Propagation.QueueChainKeepsDecisionIff` says when the
  head's decision is kept.

## Model

| member | source | states |
|---|---|---|
| TransportInvariant.ApplyKeepsInv | transport.go:157-264 | every single step of any caller or of the worker keeps the protocol's invariant |
| TransportInvariant.RunKeepsInv | transport.go:157-264 | so does every run, with any number of callers and any interleaving |
| TransportInvariant.ReachableInv | transport.go:127-145 | the invariant holds in every state the new transport can reach |
| TransportSafety.ConservationAtEveryStep | transport.go:157-264 | at every step `pending` is queue + held batch + reservation of the lock holder, accepted batches are delivered, failed, queued or held, in acceptance order and each once, and the queue never exceeds its capacity |
| TransportSafety.RunGrows | transport.go:174-186 | the four totals and the history never shrink, and closing is never undone |
| TransportSafety.NothingLeftWhenDone | transport.go:215-227 | when `done` is closed the queue is empty, the worker holds nothing and no sender can still push, so the worker's free choice abandons nothing |
| TransportSafety.ClosedAcceptsNothing | transport.go:158-166 | once closed, no step of anybody accepts a batch |
| TransportSafety.ClosedStaysClosed | transport.go:215-217 | and that holds for the rest of every run |
| TransportSafety.ShutdownLosesNothing | transport.go:204-228 | after any Shutdown returned true, delivered + failed = accepted for ever, batch by batch |
| TransportSafety.FlushGuarantee | transport.go:188-202 | a Flush that returns true has seen every batch settled that was accepted before it began, even while others keep sending |
| TransportSafety.HookAtMostOnce | transport.go:230-245 | the shutdown hook starts at most once over all calls, and only after the worker has stopped |
| TransportOutcomes.SettledAsExported | transport.go:250-259 | in every run, batch by batch and in order, what is counted is what the exports of the run ended with: `delivered` counts those that succeeded, `failed` those that did not |
| TransportOutcomes.HookResultIsOutcome | transport.go:230-245 | the stored result is a success or a failure if and only if the one hook call of the run ended with it |
| TransportOutcomes.FailedHookFailsEveryShutdown | transport.go:235-245 | in a run where a hook call failed or timed out no Shutdown returns true |
| TransportOutcomes.ShutdownHookIsCalled | transport.go:230-245 | a Shutdown returns true, where the exporter has a hook, only in a run where the hook was called once, with success |
| TransportOutcomes.FlushHookIsCalled | transport.go:188-202 | a Flush or Shutdown that returns true has called its flush hook once, with success, if there is one and unless it found the worker stopped at its start |
| TransportOutcomes.SecondShutdown | transport.go:206-214 | a Shutdown called when the worker has stopped takes no lock, drains nothing and calls no flush hook |
| TransportOutcomes.AnythingMayEnd | transport.go:188-302 | nothing restricts the outcomes: at each wait the context may end, and the call then returns false; a hook or an export may end either way at any time |
| TransportOutcomes.ResultIff | transport.go:188-245 | any Flush or Shutdown that returned has returned true if and only if its context did not end while it waited, its flush hook did not fail and, for a Shutdown, no shutdown hook failed |
| TransportSafety.HookResultIsFinal | transport.go:235-238 | the hook's result is never replaced |
| TransportSafety.NoDoubleClose | transport.go:221-248 | no channel is closed twice |
| TransportProgress.WorkerStepsAreExact | transport.go:247-264 | in every run each accepted batch costs the worker exactly six steps: what is left, plus what was done, balances |
| TransportProgress.WorkerNeverStuck | transport.go:247-264 | while anything is pending after the close, the worker can step |
| TransportProgress.DrainTakesSixStepsPerBatch | transport.go:284-297 | after the close `pending` is zero exactly when the worker has done the work that was left, at the latest after six steps for each pending batch, whatever others do |
| TransportProgress.PatientShutdownFailsOnlyByHook | transport.go:204-228 | a Shutdown whose context never ends and whose own hook calls succeed returns false only if the shutdown hook failed |
| TransportReturn.EveryCallIsShort | transport.go:204-245 | once the transport is closed and drained, in every run the steps a call has left and those it has made are together at most what it had left: no schedule of the others gives it more to do |
| TransportReturn.WorkerIsShort | transport.go:247-264 | there the worker only stops, in two steps at most |
| TransportReturn.UnreturnedIsNotStuck | transport.go:204-245 | as long as a Shutdown has not returned, somebody in progress can step: the call itself, the lock holder or Once runner it waits for, or the worker |
| TransportReturn.PatientShutdownReturns | transport.go:204-228 | so at any point of any run where that step is not possible, a Shutdown whose context never ends and whose own hook calls succeed has returned, true unless the shutdown hook failed |
| TransportReturn.CompleteRunReturns | transport.go:204-228 | in particular at the end of a run where nobody in progress can step (but for the end of the call's own context) |
| TransportReturn.HttpShutdownReturnsTrue | transport.go:437-451 | the HTTP transport has no hook that can fail: in such a run its Shutdown has returned true |
| TransportReturn.SchedulesRunOut | transport.go:204-264 | and every schedule gets there: without new calls, a run from a closed and drained transport has at most two steps and nineteen for each call |
| TransportFair.ShutdownReturns | transport.go:204-245 | under every infinite schedule that lets whoever can step do so some time, and whose mutex does not pass the call over for ever, every Shutdown returns, from wherever it is, with any number of other calls coming in, and whether or not its context ends; one whose context never ends and whose own hook calls succeed returns true unless the shutdown hook has failed |
| TransportFair.HttpShutdownSucceeds | transport.go:437-451 | over HTTP, where there is no hook, it returns true |
| TransportFair.FairScheduleExists | transport.go:204-245 | such schedules exist from every point inside a Shutdown that can still return true |
| TransportProgress.HopeIsFulfilled | transport.go:204-245 | from any point inside a Shutdown there is a run without failures in which it returns true |
| TransportOutcomes.ShutdownCanStillSucceed | transport.go:204-245 | after any run, a new Shutdown can still return true if and only if no hook call of the run failed |
| TransportRefinement.StepRefines | transport.go:157-264 | every step is a step of an atomic bounded FIFO, or invisible in it: accept with a place in the queue, or refuse because closed, unusable or full; an export ends with the outcome of the step, and the batch is settled with that outcome |
| TransportRefinement.RunRefines | transport.go:157-264 | every run is, state by state and with the outcomes of its exports, a run of that FIFO |
| TransportRefinement.EverySendCountedOnce | transport.go:157-172 | when nobody holds the lock, accepted + dropped is the number of sends that returned |
| TransportObject.ManagedExporter.constructor | transport.go:127-145 | the first state of the step system, empty and open; a capacity that is not positive becomes 64 |
| TransportObject.ManagedExporter.Enqueue | transport.go:157-172 | an undisturbed call takes the batch when open, usable and not full, else counts it as dropped; the object's state is `Enqueued` of what it was, so `pending` and the lock are right on every path |
| TransportObject.ManagedExporter.ExportOne | transport.go:250-259 | one round settles the oldest batch once, as delivered or failed |
| TransportObject.ManagedExporter.Run | transport.go:247-264 | the worker settles the backlog in order, each batch once and without retry, up to where it waits, or stops if `done` is closed |
| TransportObject.UndisturbedEnqueue | transport.go:157-172 | the step system does the same when no other step comes between: the state becomes `Enqueued`, as the object's Enqueue promises of its own |
| Intervals.UnionLength | intervals.go:23-53 | the number of nanoseconds in some interval, for proper intervals in any order, and in every case the sweep of a sorted copy, in int64; the caller's slice is not changed |
| Intervals.SweepSorted | intervals.go:36-52 | the loop computes the exact sweep, wrapped once |
| Intervals.SortByStart | intervals.go:30-34 | sorted by start, the same intervals |
| Intervals.SweepMeasures | intervals.go:36-52 | over any sorted proper list the sweep is the measure of the union |
| Intervals.SweepOfSame | intervals.go:32-34 | however the unstable sort breaks ties |
| Intervals.CoverOfSame | intervals.go:21-22 | the union does not depend on order or duplicates |
| InvertedIntervals.SweepIsMeasureLessDebt | intervals.go:36-52 | over any sorted list the sweep is the measure less the lengths of the inverted intervals nothing earlier reaches |
| InvertedIntervals.SweepIsRightIffSheltered | intervals.go:21-53 | for every order the sort can leave the result is the measure if and only if each inverted interval starts within one that starts earlier; it never exceeds the measure |
| SelfTimes.CategoriesBoundUnion | tracer.go:294-324 | each category's union <= the union of all <= the sum of the five, equal if and only if no categories overlap |
| SelfTimes.SelfTimesAccountForRoot | tracer.go:314-330 | the five values total at least the root's duration, and exactly it if and only if the union fits in it and no categories overlap |
| SelfTimes.ExclusiveIsUncovered | tracer.go:318-323 | the exclusive part never exceeds the root's uncovered time, and is it for children inside the root |
| SelfTimes.SelfTimesExactInRoot | tracer.go:286-331 | children inside the root in categories that do not overlap: the five values total the duration |
| SelfTimes.WindowIsExact | tracer.go:303-309 | with clock timestamps the clamped window of a child does not overflow |
| SelfTimes.MeasureFits | tracer.go:314-320 | nor does any union |
| SelfTimes.SweepFits | intervals.go:36-52 | nor any operation inside the sweep |
| SelfTimes.StampedIsExact | tracer.go:314-330 | so the stamped int64 values are the exact ones |
| SqlMatching.MatchersFollowPatterns | sql.go:21-36 | for every pass, position and text the matcher's length is that of the match a backtracking search prefers for the regular expression |
| SqlTemplate.PassObeys | sql.go:42-65 | a pass establishes its rule (no named or numbered placeholder, no double blank) and every later pass keeps it |
| SqlTemplate.PassLeavesNoDigitWord | sql.go:54-65 | the integer pass leaves no word of digits, and no later pass brings one back |
| SqlTemplate.NormalizeIsTemplate | sql.go:39-69 | the template of any text has at once no number word, no `?` before a digit, no `:` or `$` before a word, no upper case, single spaces only and none at the ends |
| SqlNoLists.PassCleans | sql.go:56-65 | each list pass leaves nothing for itself to find, and the later passes bring nothing back |
| SqlNoLists.NothingLeftToCollapse | sql.go:56-69 | nowhere in a template is there a tuple of several placeholders or a second row, and an IN list is always `in (?)` |
| SqlLiterals.QuotePassReads | sql.go:42-44 | a quote pass writes one `?` for each of its literals, escapes and doubled quotes included, and touches nothing else |
| SqlApostrophes.LiteralsAreHoles | sql.go:8-12 | no content of a literal reaches the template, whatever literals of both kinds a query has between its other parts: it is that of the query with `?` for each, when every double-quoted one has no apostrophe, or an even number of them, or no apostrophe behind it |
| SqlLiterals.SingleQuotedAreHoles | sql.go:8-12 | with single-quoted literals only, double quotes may stand anywhere in the rest |
| SqlApostrophes.HolesIffApostrophesPair | sql.go:42-44 | with apostrophes in the last double-quoted literal, the template is that of the query with `?` if and only if they are even in number or no single-quoted literal follows |
| SqlApostrophes.OddApostropheShowsNext | sql.go:42-44 | if they are odd, the word in the next literal stands in the template |
| SqlApostrophes.ApostropheInName | sql.go:42-44 | the smallest such query |
| SqlPlaceholders.PlaceholdersAreHoles | sql.go:46-50 | a named or numbered placeholder, anywhere, is read as `?` |
| SqlNumerals.NumeralsAreHoles | sql.go:52-54 | an integer, a hexadecimal number or a decimal with or without exponent is read as `?`, whatever its value; also behind a point or a sign that no decimal begins with (`t1.5`, `price-5`), and an integer before a point that no digit follows |
| SqlGrouping.PassKeepsAlike | sql.go:42-54 | no literal pass tells two numbers in one place apart, and the integer pass removes both |
| SqlGrouping.NumbersShareTemplate | sql.go:10-14 | replacing a whole word of digits by any other leaves the template unchanged, anywhere in any text |
| SqlValueLists.TuplesShareTemplate | sql.go:56-61 | so does replacing a tuple of placeholders and numbers by one of any other length, with any blanks inside; a lone value has none, unless it stands behind IN |
| SqlInLists.InListsShareTemplate | sql.go:56-57 | behind IN, lists of any values with any blanks share one template |
| SqlValueLists.TwoRowsShareTemplate | sql.go:59-61 | two rows, whatever their lengths and blanks, share that of one lone placeholder |
| SqlValueLists.ListsShareTemplate | sql.go:14-16 | value lists of any number of rows of any lengths share one template, but for a lone padded value that stands by itself |
| SqlPadded.LosesBlanksIff | sql.go:56-69 | in any text that the literal passes leave, the blanks around a lone placeholder are taken away if and only if it is an IN list or stands next to another row |
| SqlPadded.PaddedIff | sql.go:39-69 | the same for a lone value anywhere in any query; without quotes around it the texts beside it are what the literal passes make of its surroundings |
| SqlPadded.PaddedValueAlone | sql.go:56-57 | the smallest query that shows it: `( 1 )` and `(1)` have different templates |
| SqlWords.WordTemplate | sql.go:52-69 | a text that is one word becomes `?` exactly when it is all digits or 0x with hexadecimal digits, and is written in lower case otherwise |
| SqlHexWords.TemplateHex | sql.go:52-69 | a template has a hexadecimal number if and only if the query had one with a capital X, outside string literals and placeholders |
| SqlLeftQuotes.TemplateLiteral | sql.go:42-66 | a template has a string literal if and only if the quote passes leave one that closes when a line feed behind a backslash counts as any other character |
| SqlLeftQuotes.NoneLeft | sql.go:42-44 | they leave none where no line feed stands behind a backslash |
| SqlSecondRun.SecondRunIff | sql.go:39-69 | for any text, a second run changes the template if and only if the quote passes leave a literal that closes when a line feed behind a backslash counts as any other character, or a hexadecimal number with a capital X stands outside string literals and placeholders |
| SqlSecondRun.SecondRunIffCapitalHex | sql.go:39-69 | without a line feed behind a backslash, if and only if there is such a hexadecimal number |
| SqlSecondRun.NormalizeIsIdempotent | sql.go:39-69 | normalizing is idempotent on queries without a line feed behind a backslash and without a capital X |
| SqlSecondRun.LineFeedInLiteral | sql.go:42-66 | the smallest text whose template has a literal left |
| SqlWords.SecondRunOnWord | sql.go:25-27 | a second run changes a word's template if and only if a capital X kept it from being a hexadecimal number |
| LogText.ValidIffUtf8 | logs.go:353-355 | reading character by character decides the grammar of section 4 of RFC 3629 |
| LogScalars.ValidIffEncoded | logs.go:353-355 | and that is the text which encodes Unicode scalar values, none of them a surrogate and each in its shortest form |
| LogText.Truncate | logs.go:348-357 | short text is unchanged, longer text becomes its longest UTF-8 beginning within the limit |
| LogText.ValidTextLosesLittle | logs.go:348-357 | valid text stays valid and loses at most three bytes below the limit |
| LogText.BrokenTextEndsThere | logs.go:353-355 | where no character can start, the text is cut, however much of the limit is left |
| LogAttributes.Body | logs.go:198 | the body is the redacted message if it fits into 8192 bytes, and else its longest UTF-8 beginning that does |
| LogAttributes.Collector.constructor | logs.go:220-221 | nothing kept, nothing dropped |
| LogAttributes.Collector.Append | logs.go:232-263 | the recursion sees exactly the leaves of the attribute depth first, keeps the first 64 admissible ones of all it has seen and counts every other leaf once, a subtree that is too deep as one |
| LogAttributes.Collector.AppendValue | logs.go:248-262 | a value is kept or counted under the dotted path of its groups |
| LogAttributes.Collector.AppendAll | logs.go:222-228 | the same for a list of attributes |
| LogAttributes.Handler.RecordAttributes | logs.go:219-230 | the handler's attributes and then the record's, all under the present groups: the first 64 admissible leaves, and kept + dropped is the number of leaves |
| LogValues.RecordedValues | logs.go:219-302 | the recorded attributes show the first 64 leaves that may be logged, in order: texts redacted and cut to 2048 bytes, flags and numbers unchanged, an unsigned number above int64 as the digits that denote it, no group and nothing of another kind |
| LogRecords.RecordedIsSafe | logs.go:248-256 | at most 64 attributes, no key over 256 bytes, none that spans or logs hold back |
| LogRecords.EarlierAttributesWin | logs.go:222-228 | more attributes never push out what was recorded without them |
| LogRecords.SlogRuleIff | logs.go:147-168 | for any sequence of WithAttrs and WithGroup calls and any record, the leaves are those that slog promises (each under the groups opened before it) if and only if no attribute with a leaf was added before a group was opened |
| LogRecords.GroupAfterAttribute | logs.go:147-168 | the smallest handler that breaks the rule |
| LogRecords.GroupsReachBack | logs.go:222-227 | after any sequence of WithAttrs and WithGroup calls every leaf of the handler, the calls and the record is recorded, under all groups that are open in the end, those added before a group was opened as well |
| LogRecords.DepthLimit | logs.go:233-246 | a value inside eight groups is found under their names, inside nine it is one dropped subtree; groups without a name count for the depth only |
| LogRecords.SecretGroupHidesAll | logs.go:304-316 | a group or key with a sensitive name, in any case and at any depth, keeps all below it from being recorded |
| SensitiveKeys.SensitiveIff | restlytics.go:190-213 | a key is held back if and only if one of the listed names stands in it by itself: between separators, or with nothing but blanks before or behind it, each letter small or capital |
| SensitiveKeys.SensitiveLogIff | logs.go:304-316 | a log's key also if it names an error, an exception or a binding in that way |
| Attributes.ExemptListIsIdle | restlytics.go:201-213 | a key is sensitive exactly when one of its segments is |
| Attributes.SelfKeyPasses | tracer.go:326-330 | the self-time keys are never held back |
| Attributes.CategoryPasses | tracer.go:97 | nor is the category key |
| Attributes.SelfKeysDiffer | tracer.go:326-330 | no two self-time keys are the same |
| Spans.WritesMakeOrderedMap | span.go:65-76 | after any sequence of writes the entries are the keys not held back, once each, in the order of first writes with the values of last writes |
| Spans.SdkHoldsBack | restlytics.go:201-213 | with the SDK's policy, after any writes a span has exactly the keys written that are not sensitive |
| Spans.Span.constructor | span.go:39-51 | a span without attributes |
| Spans.Span.SetAttr | span.go:65-76 | the three parallel structures take the write and stay consistent |
| Spans.Span.SetString | span.go:79-85 | as SetAttr, with the url redacted under its key in any case |
| Spans.Span.SetInt | span.go:88-91 | as SetAttr |
| Spans.Span.SetDouble | span.go:94-97 | as SetAttr |
| Spans.Span.SetBool | span.go:100-103 | as SetAttr |
| Spans.Span.SetStatus | span.go:107-111 | only the status changes |
| Spans.Span.SetEnd | span.go:60-63 | only the end changes |
| Spans.Span.AddLink | span.go:118-127 | one link more, at the end |
| Spans.Span.EntriesAreOrderedMap | span.go:65-76 | the span's attributes are the insertion-ordered map of all its writes |
| Spans.Span.ToData | span.go:152-172 | every field of the span is exported unchanged, its attributes in order and one by one; a status only if it was set |
| TraceContext.CheckHex | ids.go:120-128 | true exactly for lower-case hexadecimal text |
| TraceContext.CheckAllZero | ids.go:47-57 | true exactly for text of zeros |
| TraceContext.ParseIsPositional | ids.go:75-109 | a header is accepted exactly when its trimmed lower-case form has the fields of section 3.2.2 of W3C Trace Context at their fixed places, any version, ids not zero; the ids are those fields and the flag is the last digit's low bit |
| TraceContext.ParseFormat | ids.go:75-118 | parsing a formatted valid triple gives it back |
| TraceContext.FormatParse | ids.go:75-118 | formatting a parsed header gives its trimmed lower-case form with version 00 and only the sampled bit, which parses the same |
| Sampling.DecisionMonotone | tracer.go:340-357 | raising the rate never drops a trace |
| Sampling.TailsAreNumbers | tracer.go:347-354 | the tail of a valid trace id always parses, to a number below 2^32 that determines it |
| Sampling.LastDigitsDecide | tracer.go:347-356 | between 0 and 1, an id whose last eight digits write the number n is sampled if and only if n is below the rate times 2^32 - 1 |
| Sampling.SameEndSameDecision | tracer.go:347-350 | ids with the same last eight characters get the same decision, whatever stands before |
| Sampling.CaseDoesNotMatter | tracer.go:351 | capital hexadecimal digits count as small ones |
| Sampling.NoNumberNoSample | tracer.go:351-354 | an id whose end is no hexadecimal number is not sampled at such a rate |
| Sampling.DigitPlaces | tracer.go:351 | the digits of a tail are those of its number in base 16, the last one lowest |
| Sampling.EveryNumberIsATail | tracer.go:347-354 | and every such number is a tail |
| Sampling.SampledIffKept | tracer.go:340-357 | a trace is sampled exactly when its tail is a kept number |
| Sampling.KeptCount | tracer.go:355-356 | how many tails a rate keeps |
| Sampling.KeptShareIsTheRate | tracer.go:338-357 | the kept share of the 2^32 tails differs from the rate by less than 2^-32 |
| Tracing.StartRoot | tracer.go:70-104 | a continued trace takes id, parent and flag from the header, a new one its own id and its own decision; a root span exists exactly when sampled, with the given name, kind, category, start and parent, and a link to its parent exactly for a job |
| Tracing.RequestState.constructor | tracer.go:70-104 | the state of a request from its head decision |
| Tracing.RequestState.StartChildSpan | tracer.go:106-124 | a child is recorded under the root, with its category written, only when sampled and below the cap |
| Tracing.RequestState.AddChildSpan | tracer.go:216-236 | the same for a finished call, under the id that was minted before |
| Tracing.RequestState.RoundTrip | outbound_http.go:29-38 | a header is sent exactly by an enabled service with a trace, and carries the id of the span that is recorded for the call, with its times, its kind and the category "http" |
| Tracing.RequestState.Enqueue | background.go:144-156 | enabled or not, the carrier carries the id of the span that is recorded for the send, with its time, its kind and the category "queue" |
| Tracing.RequestState.IncrementDBQueryCount | tracer.go:239-247 | one query more, nothing else |
| Tracing.AttachSelfTime | tracer.go:286-331 | the five self-times are written in order, each the int64 value of the children's unions |
| Tracing.CategoryIff | span.go:130-141 | a child counts for "db", "http", "cache" or "queue" if and only if it carries that text as its category, and for "app" if it carries none of them |
| Tracing.SelfTimeByText | tracer.go:286-331 | with clock timestamps the self-time of a category is the measure of the times of exactly the children that carry its text, and for "app" also what no child covers |
| Tracing.RequestState.Close | tracer.go:266-272 | the root's end, self-times, query count and category are written, a status that was not set becomes OK, and nothing else of the span changes |
| Tracing.RequestState.Payload | tracer.go:274-278 | the payload is the root first and then every child in order |
| Tracing.RequestState.Finish | tracer.go:251-282 | nothing when not sampled; otherwise the closed root and every recorded child, in order, once; with clock timestamps the exported root has under `restlytics.self_ns.` and each category's text the nanoseconds that count for that text, which total at least its duration; it has the query count and the category |
| Tracing.ExportedTimesAccountForRoot | tracer.go:286-331 | with clock timestamps the five numbers in the payload are the exact self-times, at least the root's duration together, and exactly it if and only if the children's union fits in it and no categories overlap |
| Tracing.SelfTimeInPayload | tracer.go:326-330 | the exported root carries each self-time with the value that was stamped last |
| Tracing.SdkPolicyPassesSelfTimes | restlytics.go:201-213 | the SDK's own redaction lets the self-times through |
| Propagation.Call | background.go:144-156 | one call through RoundTrip or Enqueue and the receiver's startRoot: the receiver's state follows the decision of the chain, and its root's parent is the child span that the caller recorded for the call |
| Propagation.LinkCarries | background.go:144-147 | over a header or a carrier the receiver has the sender's trace id and decision, and the sent id as its parent, whatever its own rate |
| Propagation.ChainFollowsHead | tracer.go:79-101 | along any chain every service has the head's trace id, its caller's span id as parent, and is sampled if and only if the head is and no service up to it is disabled |
| Propagation.EnabledChainSharesDecision | tracer.go:83-87 | among enabled services the head decides for all |
| Propagation.QueueChainKeepsDecisionIff | background.go:139-147 | a chain of queued jobs keeps the head's decision if and only if no service in it is disabled |
| Propagation.DisabledServiceBetween | background.go:139-147 | the smallest such chain: behind one disabled service an enabled one continues the trace and does not sample it |

## Left out

- HTTP posting, gzip, JSON encoding and the preview, log and null transports: an export is a step that succeeds or fails.
- Wall-clock time, tickers and deadlines: the end of a context is an event that may happen at any poll.
- `redactURL` and `redactLogText`: parameters of the span's and the log's policies, because they are library calls and heuristic patterns.
- Random ids: parameters. Float rounding in `sampleDecision`: exact reals.
- Unicode case folding and blanks: ASCII only; bytes above 127 count as neither words nor blanks.
- TransportObject.ManagedExporter.Enqueue: an undisturbed call; every interleaving is in the step system.
- TransportObject.ManagedExporter.Run: the loop while nobody else calls, with `done` closed only when the queue is empty, as in every reachable state; every interleaving is in the step system.
- Intervals.SortByStart: an insertion sort stands for sort.Slice; only that the result is sorted and has the same elements is used.
- SqlNumerals.NumeralsAreHoles: not straight after a quote, a placeholder, a whole number with its point or a decimal up to the sign of its exponent, where the code reads the characters together with what stands before them; and not an integer before a point and a digit, which is the beginning of a decimal.
- SqlApostrophes.LiteralsAreHoles: two literals between the same quotes that touch are one for the code, so some other text stands between them; the other parts have no quotes. Where apostrophes are counted the literal has no backslash.
- SqlApostrophes.HolesIffApostrophesPair: an odd number only in the last double-quoted literal, with no double quote or backslash in it and no backslash in the part behind it: behind an earlier one the shown text of later literals decides.
- LogAttributes.Collector.Append: attributes are already resolved (`slog.Value.Resolve`), and a time is the text it prints as.
- The atomics that count batches are unbounded, not int64.
- Severity levels, correlation ids on log records, `tracestate`, the attributes that adapters add to spans, the other attributes of the spans of HTTP calls and queued jobs (method, url, status, messaging names), and the switch that turns HTTP instrumentation off.
- The mutex of a request's state: its methods are modelled one at a time.
- Framework adapters, `dbwrap.go`, `httpmiddleware.go` and `config.go`: thin wrappers that would only add easy members.
