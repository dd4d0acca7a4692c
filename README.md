# log4j rollover file-retention engine, modelled in Dafny

This project models the part of log4j's rolling file appender that decides which old log
files to delete after a rollover (package `org.apache.logging.log4j.core.appender.rolling.action`).
It has four parts.

- **The `PathCondition` algebra.**
  - The composites are `IfAll`, `IfAny` and `IfNot`.
  - The leaf filters are `IfFileName`, `IfLastModified`, `IfAccumulatedFileSize` and `IfAccumulatedFileCount`.
  - `FixedCondition` is a constant condition.
  - A probe condition stands for the call-counting mock that the tests nest inside the others.
  - Each condition has `accept(baseDir, relativePath, attrs)` and the `beforeFileTreeWalk()` hook.
- **Configuration.**
  - The factory methods, with their configuration errors.
  - `getSyntaxAndPattern`.
  - Size thresholds such as `"3 KB"`, which use 1024-based units.
  - Ages written in the ISO 8601 duration format with designators (ISO 8601:2004 section 4.4.3.2), such as `P7D` and `PT33S`.
- **`DeletingVisitor`.**
  - `visitFile` relativizes the file against the base directory. It then asks every filter of its list, and deletes the file unless it is in test mode.
  - `visitFileFailed` swallows a vanished file and hands back any other I/O failure unchanged.
- **`AbstractAction.run`.**
  - It runs the action's work once.
  - It turns whatever that work throws into exactly one WARN entry in the status log.

## How the model is built

- **Immutable values.** A condition tree is a value (`PathConditions.Condition`). What changes while files are visited is kept in `PathConditions.State`, keyed by object identity (`NodeId`):
  - the running totals of the accumulators;
  - the relative paths each probe was asked to accept;
  - how often each probe's `beforeFileTreeWalk` ran.

  When the same identity appears at several places, it is one Java object listed several times, as in `IfAll(counter, counter, counter)`.
- **Specification functions.** `PathConditions.Accept` and `PathConditions.BeforeWalk` state what one call does.
- **Runs of calls.** The accumulator lemmas are stated over these reference functions in `AccumulatorProperties`:
  - `Walk(c, s, vs, m)` is the state after showing the files of `vs` to `c`, one accept call each, in order;
  - `Repeat(c, s, v, m, k)` is the same for one file shown `k` times;
  - `AcceptedAmong(c, s, v, m, k)` counts how many of those `k` calls accepted;
  - `AcceptedPaths(c, s, vs, m)` lists, in order, the relative paths of the files of `vs` that `c` accepted;
  - `OldEnoughPaths(age, vs)` lists, in order, the relative paths of the files of `vs` at least `age` old, without asking any condition;
  - `SumSizes(vs)` is the total size of the files of `vs`.
- **Objects.** `ConditionObjects.Engine` is the same behaviour written as objects with fields, with loops over the children. Its methods are proved equal to those functions.
- **The visitor.** `DeletingVisitors.DeletingVisitor.VisitFile` is a loop over the filter list. It updates the engine, the visitor's list of deleted paths and, in test mode, its list of files reported as to be deleted.
- **Paths.** `Paths.Path` is a list of names plus an absolute flag. `Paths.Relativize` strips the common prefix of names.
- **Pattern matching.** Glob and regex matching is a parameter (`Matcher`). The literal-pattern examples use `ConditionProperties.LiteralMatcher`, under which a pattern matches exactly its own text.
- **Time.** The clock reading is the `nowMillis` field of a visit.
- **Exceptions.** An exception is a `Fault` value with a category (checked I/O, runtime, JVM error), a class name and an optional message.

### Choices worth knowing

- **The visitor takes a filter list.** `DeletingVisitor` is built with a list of conditions (log4j-core/src/test/java/org/apache/logging/log4j/core/appender/rolling/action/DeletingVisitorTest.java:91-92) and deletes only when all of them accept:
  - an empty list deletes;
  - the path is relativized once per filter, inside the loop.

  So with no filters the file is never relativized, and relativizing can fail only when there is at least one filter.
- **Accumulator reset.** `beforeFileTreeWalk` on an accumulator resets its running total to zero before forwarding to its nested conditions, so each walk counts afresh. The tests check only the forwarding, not the reset.

## Model

| member | source | states |
|---|---|---|
| PathConditions.Accept | log4j-core/src/test/java/org/apache/logging/log4j/core/appender/rolling/action/IfAllTest.java:32-45 | accept on one condition: composites ask their children in order, leaf filters their own test first. Accepting never runs a beforeFileTreeWalk hook: the hook counters are the same afterwards. AcceptMeansHolds pins the answer to an independent formula. |
| PathConditions.AcceptAll | log4j-core/src/test/java/org/apache/logging/log4j/core/appender/rolling/action/IfAllTest.java:36-39 | The short-circuit conjunction over a list. It runs no hook. AcceptAllMeansEvery states its answer. |
| PathConditions.AcceptAny | log4j-core/src/test/java/org/apache/logging/log4j/core/appender/rolling/action/IfAnyTest.java:36-39 | The short-circuit disjunction over a list. It runs no hook. AcceptAnyMeansSome states its answer. |
| PathConditions.BeforeWalk | log4j-core/src/test/java/org/apache/logging/log4j/core/appender/rolling/action/IfAllTest.java:47-65 | beforeFileTreeWalk on one condition never asks a probe to accept anything: the recorded calls are the same afterwards. BeforeWalkReachesEveryProbe counts the hooks it runs. |
| PathConditions.BeforeWalkAll | log4j-core/src/test/java/org/apache/logging/log4j/core/appender/rolling/action/IfFileNameTest.java:167-169 | The hook on each condition of a list, in order. It asks no probe to accept anything. |
| ConditionProperties.AllTruthTable | log4j-core/src/test/java/org/apache/logging/log4j/core/appender/rolling/action/IfAllTest.java:33-45 | IfAll of two fixed conditions accepts exactly when both are true. An IfAll with no children rejects. Neither changes any state. |
| ConditionProperties.AnyTruthTable | log4j-core/src/test/java/org/apache/logging/log4j/core/appender/rolling/action/IfAnyTest.java:33-45 | IfAny of two fixed conditions accepts exactly when at least one is true. An IfAny with no children rejects. |
| ConditionProperties.NotTruthTable | log4j-core/src/test/java/org/apache/logging/log4j/core/appender/rolling/action/IfNotTest.java:34-39 | A fixed condition answers its constant for any arguments. IfNot of it answers the opposite. |
| ConditionFactories.CreateNotCondition | log4j-core/src/test/java/org/apache/logging/log4j/core/appender/rolling/action/IfNotTest.java:43-45 | Building IfNot fails exactly when the child is missing (the NullPointerException). Otherwise the result is the negation of the child. |
| ConditionProperties.AcceptMeansHolds | log4j-core/src/test/java/org/apache/logging/log4j/core/appender/rolling/action/IfAllTest.java:32-45 | For every condition tree without accumulators, in any state, accept answers what a logic formula says. IfAll is a conjunction over at least one child. IfAny is a disjunction. IfNot is a negation. A leaf filter is its own test AND all its nested conditions. |
| ConditionProperties.AcceptAllMeansEvery | log4j-core/src/test/java/org/apache/logging/log4j/core/appender/rolling/action/IfAllTest.java:36-39 | The short-circuit conjunction over a list accepts exactly when every condition of the list holds. |
| ConditionProperties.AcceptAnyMeansSome | log4j-core/src/test/java/org/apache/logging/log4j/core/appender/rolling/action/IfAnyTest.java:36-39 | The short-circuit disjunction over a list accepts exactly when some condition of the list holds. |
| ConditionProperties.AcceptAllStopsAtRejection | log4j-core/src/test/java/org/apache/logging/log4j/core/appender/rolling/action/IfAllTest.java:36-39 | IfAll stops at the first rejection: once a prefix of the list rejects, the answer and the whole state are those of that prefix, so later conditions are not asked, and their probes and totals stay as they were. |
| ConditionProperties.AcceptAnyStopsAtAcceptance | log4j-core/src/test/java/org/apache/logging/log4j/core/appender/rolling/action/IfAnyTest.java:36-39 | IfAny stops at the first acceptance: once a prefix of the list accepts, the answer and the whole state are those of that prefix, so later conditions are not asked. |
| ConditionProperties.BeforeWalkReachesEveryProbe | log4j-core/src/test/java/org/apache/logging/log4j/core/appender/rolling/action/IfAllTest.java:62-64 | For any tree, beforeFileTreeWalk reaches a probe's hook once for each place the probe occupies in the tree. It asks no probe to accept anything. |
| ConditionProperties.BeforeWalkAllReachesEveryProbe | log4j-core/src/test/java/org/apache/logging/log4j/core/appender/rolling/action/IfFileNameTest.java:167-169 | The same holds for a list of conditions, which is how the leaf filters forward the call to their nested conditions. |
| ConditionProperties.HookForwardingExamples | log4j-core/src/test/java/org/apache/logging/log4j/core/appender/rolling/action/IfNotTest.java:62-64 | A child listed three times is reached three times under IfAll, IfAny, IfFileName, IfLastModified and both accumulators. IfNot reaches its child once. |
| ConditionProperties.BeforeWalkResetsAccumulators | log4j-core/src/test/java/org/apache/logging/log4j/core/appender/rolling/action/IfAccumulatedFileCountTest.java:104-107 | After beforeFileTreeWalk, every accumulator of the tree has total zero. All other totals are unchanged. |
| ConditionProperties.AcceptKeepsOtherTotals | log4j-core/src/test/java/org/apache/logging/log4j/core/appender/rolling/action/IfAccumulatedFileSizeTest.java:112-133 | accept changes an accumulator's total only when that accumulator is part of the condition. Nested conditions therefore cannot disturb the accumulator above them. |
| ConditionProperties.RejectingFilterSkipsNested | log4j-core/src/test/java/org/apache/logging/log4j/core/appender/rolling/action/IfFileNameTest.java:109-115 | When a leaf filter's own test fails, it rejects without calling any probe below it. |
| ConditionProperties.NestedProbeCalledOnlyOnOwnAcceptance | log4j-core/src/test/java/org/apache/logging/log4j/core/appender/rolling/action/IfFileNameTest.java:99-115 | For each of the four leaf filters with one nested probe: the filter accepts exactly when its own test passes and the probe agrees. The probe is called, with the relative path, exactly when the own test passes. |
| ConditionProperties.LastModifiedAnswer | log4j-core/src/test/java/org/apache/logging/log4j/core/appender/rolling/action/IfLastModifiedTest.java:45-70 | IfLastModified without nested conditions accepts exactly when now minus the last-modified time is at least its age, and changes nothing. |
| ConditionProperties.ThirtyThreeSecondsOld | log4j-core/src/test/java/org/apache/logging/log4j/core/appender/rolling/action/IfLastModifiedTest.java:45-70 | IfLastModified(PT33S) accepts a file whose age is 33000 ms or 33005 ms. It rejects a file whose age is 32995 ms. |
| ConditionProperties.GlobWinsOverRegex | log4j-core/src/test/java/org/apache/logging/log4j/core/appender/rolling/action/IfFileNameTest.java:53-61 | With both glob "path" and regex "regex", path "path" is accepted and "regex" is rejected. |
| ConditionProperties.RegexUsedWithoutGlob | log4j-core/src/test/java/org/apache/logging/log4j/core/appender/rolling/action/IfFileNameTest.java:63-71 | With only regex "regex", path "regex" is accepted and "nomatch" is rejected. |
| ConditionProperties.FileNameIgnoresBaseAndAttributes | log4j-core/src/test/java/org/apache/logging/log4j/core/appender/rolling/action/IfFileNameTest.java:73-82 | IfFileName without nested conditions gives the same answer and state for any base directory, attributes and clock, as long as the relative path is the same. |
| ConditionFactories.CreateNameCondition | log4j-core/src/test/java/org/apache/logging/log4j/core/appender/rolling/action/IfFileNameTest.java:33-43 | Building IfFileName fails exactly when both glob and regex are missing (the IllegalArgumentException). Otherwise it succeeds with the nested conditions and the syntax-and-pattern form. |
| ConditionFactories.SyntaxAndPattern | log4j-core/src/test/java/org/apache/logging/log4j/core/appender/rolling/action/IfFileNameTest.java:45-51 | When a glob is given the result is the glob marked "glob:" (the glob wins, whatever the regex), and otherwise the regex marked "regex:"; WithSyntax states the marking. |
| ConditionFactories.GlobIgnoresRegex | log4j-core/src/test/java/org/apache/logging/log4j/core/appender/rolling/action/IfFileNameTest.java:53-61 | For every glob, regex and nested list: once a glob is given, the regex makes no difference to the condition built, which is the glob marked "glob:". |
| ConditionFactories.WithSyntax | log4j-core/src/test/java/org/apache/logging/log4j/core/appender/rolling/action/IfFileNameTest.java:47-50 | The result always starts with the mark. A pattern that already carries the mark comes back unchanged. Otherwise the pattern follows the mark. |
| ConditionFactories.WithSyntaxIdempotent | log4j-core/src/test/java/org/apache/logging/log4j/core/appender/rolling/action/IfFileNameTest.java:48-50 | Marking twice is the same as marking once. |
| ConditionFactories.SyntaxAndPatternExamples | log4j-core/src/test/java/org/apache/logging/log4j/core/appender/rolling/action/IfFileNameTest.java:46-51 | "path" and "glob:path" give "glob:path". A regex "bar" or "regex:bar" gives "regex:bar". |
| ConditionFactories.CreateFileSizeCondition | log4j-core/src/test/java/org/apache/logging/log4j/core/appender/rolling/action/IfAccumulatedFileSizeTest.java:32-46 | Building IfAccumulatedFileSize fails exactly when the size text is not recognised. Otherwise the threshold (getThresholdBytes) is the parsed number of bytes. |
| FileSize.Parse | log4j-core/src/test/java/org/apache/logging/log4j/core/appender/rolling/action/IfAccumulatedFileSizeTest.java:32-46 | Every size text it accepts starts with a digit and ends with the letter B in either case. ParseAcceptsWellFormed and ParseFormat pin down which texts and what value. |
| FileSize.ParseAcceptsWellFormed | log4j-core/src/test/java/org/apache/logging/log4j/core/appender/rolling/action/IfAccumulatedFileSizeTest.java:34-41 | The parser accepts exactly the strings made of digits, an optional single space, and a unit B, KB, MB or GB in any letter case. |
| FileSize.ParseFormat | log4j-core/src/test/java/org/apache/logging/log4j/core/appender/rolling/action/IfAccumulatedFileSizeTest.java:34-41 | Round trip: n written with any unit, with or without a space, in either case, parses to n times 1, 1024, 1024² or 1024³. |
| FileSize.ParseValue | log4j-core/src/test/java/org/apache/logging/log4j/core/appender/rolling/action/IfAccumulatedFileSizeTest.java:34-41 | Every well-formed size text, leading zeros and mixed letter case included, parses to the value of its digits times its unit's multiple. |
| FileSize.NonCanonicalExamples | log4j-core/src/test/java/org/apache/logging/log4j/core/appender/rolling/action/IfAccumulatedFileSizeTest.java:34-41 | Spellings beyond the tested ones: "007KB" is 7 KB and "3 kB" is 3 KB. |
| FileSize.ByteExamples | log4j-core/src/test/java/org/apache/logging/log4j/core/appender/rolling/action/IfAccumulatedFileSizeTest.java:34-35 | "2B" is 2 bytes and "3 B" is 3 bytes. |
| FileSize.KilobyteExamples | log4j-core/src/test/java/org/apache/logging/log4j/core/appender/rolling/action/IfAccumulatedFileSizeTest.java:36-37 | "2KB" is 2·1024 bytes and "3 KB" is 3·1024 bytes. |
| FileSize.MegabyteExamples | log4j-core/src/test/java/org/apache/logging/log4j/core/appender/rolling/action/IfAccumulatedFileSizeTest.java:38-39 | "2MB" and "3 MB" are 2·1024² and 3·1024² bytes. |
| FileSize.GigabyteExamples | log4j-core/src/test/java/org/apache/logging/log4j/core/appender/rolling/action/IfAccumulatedFileSizeTest.java:40-41 | "2GB" and "3 GB" are 2·1024³ and 3·1024³ bytes. |
| Durations.Parse | log4j-core/src/test/java/org/apache/logging/log4j/core/appender/rolling/action/IfLastModifiedTest.java:39-43 | Every duration it accepts starts with "P" and has at least three characters. |
| Durations.ParseAcceptsWellFormed | log4j-core/src/test/java/org/apache/logging/log4j/core/appender/rolling/action/IfLastModifiedTest.java:39-43 | Parse accepts exactly the texts of the grammar "P" [n "D"] ["T" [n "H"] [n "M"] [n "S"]] with at least one element and no "T" without a time element. The grammar is stated on its own, by where the elements end. |
| Durations.RejectedIncomplete | log4j-core/src/test/java/org/apache/logging/log4j/core/appender/rolling/action/IfLastModifiedTest.java:39-43 | "P", "PT" and "P1DT" are rejected: no element at all, or a time part with no element. |
| Durations.RejectedMisplaced | log4j-core/src/test/java/org/apache/logging/log4j/core/appender/rolling/action/IfLastModifiedTest.java:39-43 | "P1H", "PT1D" and "PT1S1M" are rejected: an hour in the date part, a day in the time part, seconds before minutes. |
| Durations.ParseFormat | log4j-core/src/test/java/org/apache/logging/log4j/core/appender/rolling/action/IfLastModifiedTest.java:41-42 | Round trip: any duration written with at least one of the D, H, M and S elements parses back to the total of those elements, in seconds. |
| Durations.DaysOnlyValue | log4j-core/src/test/java/org/apache/logging/log4j/core/appender/rolling/action/IfLastModifiedTest.java:39-43 | "P" and any days element, leading zeros included, is that many days in seconds. |
| Durations.TimePartValue | log4j-core/src/test/java/org/apache/logging/log4j/core/appender/rolling/action/IfLastModifiedTest.java:39-43 | "P", an optional days element, "T" and any time part, leading zeros included, is the total of its elements in seconds. With DaysOnlyValue this covers every well-formed duration. |
| Durations.Examples | log4j-core/src/test/java/org/apache/logging/log4j/core/appender/rolling/action/IfLastModifiedTest.java:41-49 | "P7D" is seven days. "PT33S" is 33 seconds, which is 33000 ms. |
| AccumulatorProperties.CountWalkTotal | log4j-core/src/test/java/org/apache/logging/log4j/core/appender/rolling/action/IfAccumulatedFileCountTest.java:44-57 | Over any sequence of files, the count grows by the number of files shown. Nested conditions do not disturb it. |
| AccumulatorProperties.CountWalkTest | log4j-core/src/test/java/org/apache/logging/log4j/core/appender/rolling/action/IfAccumulatedFileCountTest.java:44-57 | On any sequence of files, call i passes its own test exactly when the count after i + 1 files is strictly above the threshold. A call that fails its own test rejects. |
| AccumulatorProperties.SizeWalkTotal | log4j-core/src/test/java/org/apache/logging/log4j/core/appender/rolling/action/IfAccumulatedFileSizeTest.java:59-95 | Over any sequence of files of any sizes, the byte total grows by the sum of their sizes. Nested conditions do not disturb it. |
| AccumulatorProperties.SizeWalkTest | log4j-core/src/test/java/org/apache/logging/log4j/core/appender/rolling/action/IfAccumulatedFileSizeTest.java:59-95 | On any sequence of files, call i passes its own test exactly when the sizes of the first i + 1 files take the total strictly above the threshold. A call that fails its own test rejects. |
| AccumulatorProperties.AcceptedAmongNone | log4j-core/src/test/java/org/apache/logging/log4j/core/appender/rolling/action/IfLastModifiedTest.java:72-107 | The count of accepted calls is zero exactly when no call accepted. |
| AccumulatorProperties.AcceptedAmongAll | log4j-core/src/test/java/org/apache/logging/log4j/core/appender/rolling/action/IfLastModifiedTest.java:72-107 | The count of accepted calls equals the number of calls exactly when every call accepted. |
| AccumulatorProperties.CountAboveThreshold | log4j-core/src/test/java/org/apache/logging/log4j/core/appender/rolling/action/IfAccumulatedFileCountTest.java:44-57 | The one-file case of CountWalkTotal and CountWalkTest: after k calls, the count has grown by k. The next call passes its own test exactly when the count then goes strictly above the threshold. Without nested conditions, this decides the answer: the T-th call (exact match) rejects and every later call accepts. |
| AccumulatorProperties.CountProbeCalls | log4j-core/src/test/java/org/apache/logging/log4j/core/appender/rolling/action/IfAccumulatedFileCountTest.java:75-85 | Take a fresh count filter with threshold T and an agreeing nested probe. After k calls, the probe has been called max(0, k − T) times. |
| AccumulatorProperties.ProbeSeesAcceptedCalls | log4j-core/src/test/java/org/apache/logging/log4j/core/appender/rolling/action/IfLastModifiedTest.java:88-107 | Over any sequence of files shown to a leaf filter, an agreeing nested probe is called with the relative path of each file the filter accepts, in order, and with no other (AcceptedPaths lists those paths). |
| AccumulatorProperties.ProbeSeesRepeatedAcceptedCalls | log4j-core/src/test/java/org/apache/logging/log4j/core/appender/rolling/action/IfLastModifiedTest.java:88-97 | The same file shown k times in a row: the probe is called once per accepted call, AcceptedAmong times in all. |
| AccumulatorProperties.LastModifiedAcceptsOldEnough | log4j-core/src/test/java/org/apache/logging/log4j/core/appender/rolling/action/IfLastModifiedTest.java:72-107 | Over any sequence of files, IfLastModified with an agreeing nested probe accepts exactly the files whose age is at least its own, so the probe sees exactly those. |
| AccumulatorProperties.AgeSwitchProbeCalls | log4j-core/src/test/java/org/apache/logging/log4j/core/appender/rolling/action/IfLastModifiedTest.java:88-107 | PT33S over a probe, shown three files 33.005 s old and then three 32.995 s old: the probe is called three times, for the first three files only. |
| AccumulatorProperties.SizeAboveThreshold | log4j-core/src/test/java/org/apache/logging/log4j/core/appender/rolling/action/IfAccumulatedFileSizeTest.java:81-95 | The one-size case of SizeWalkTotal and SizeWalkTest: after k files of one size, the byte total has grown by k times that size. The next file passes its own test exactly when the total then goes strictly above the threshold. |
| AccumulatorProperties.SingleFileAgainstThreshold | log4j-core/src/test/java/org/apache/logging/log4j/core/appender/rolling/action/IfAccumulatedFileSizeTest.java:48-79 | A single file on a fresh size filter is accepted exactly when it is strictly larger than the threshold. So threshold+1 accepts, while the exact threshold and threshold−1 reject. |
| AccumulatorProperties.QuarterSizeAcceptsFromFifth | log4j-core/src/test/java/org/apache/logging/log4j/core/appender/rolling/action/IfAccumulatedFileSizeTest.java:81-95 | Files of a quarter of the threshold each: the first four are rejected and every later one is accepted. |
| AccumulatorProperties.QuarterSizeProbeCalls | log4j-core/src/test/java/org/apache/logging/log4j/core/appender/rolling/action/IfAccumulatedFileSizeTest.java:97-134 | With an agreeing nested probe, after k quarter-sized files the probe has been called max(0, k − 4) times. |
| ConditionObjects.Engine.constructor | log4j-core/src/test/java/org/apache/logging/log4j/core/appender/rolling/action/IfAccumulatedFileCountTest.java:44-48 | Freshly built conditions: every accumulator total is zero, and no probe has been called or walked. |
| ConditionObjects.Engine.Accept | log4j-core/src/test/java/org/apache/logging/log4j/core/appender/rolling/action/IfAccumulatedFileSizeTest.java:86-93 | The object method leaves the fields and the answer that Accept specifies, including the accumulator updating its total field in place. |
| ConditionObjects.Engine.AcceptAll | log4j-core/src/test/java/org/apache/logging/log4j/core/appender/rolling/action/IfAllTest.java:36-39 | The loop stops at the first rejection. It leaves the answer and the fields that the list conjunction specifies. |
| ConditionObjects.Engine.AcceptAny | log4j-core/src/test/java/org/apache/logging/log4j/core/appender/rolling/action/IfAnyTest.java:36-39 | The loop stops at the first acceptance. It leaves the answer and the fields that the list disjunction specifies. |
| ConditionObjects.Engine.BeforeFileTreeWalk | log4j-core/src/test/java/org/apache/logging/log4j/core/appender/rolling/action/IfAnyTest.java:62-64 | The fields afterwards are those that BeforeWalk specifies. |
| ConditionObjects.Engine.BeforeFileTreeWalkAll | log4j-core/src/test/java/org/apache/logging/log4j/core/appender/rolling/action/IfLastModifiedTest.java:126-129 | The loop forwards the hook to each nested condition in order. It leaves the fields that BeforeWalkAll specifies. |
| Paths.Relativize | log4j-core/src/test/java/org/apache/logging/log4j/core/appender/rolling/action/DeletingVisitorTest.java:130-151 | Relativizing is defined exactly when both paths are absolute or both are relative, and the result is relative. |
| Paths.RelativizeResolve | log4j-core/src/test/java/org/apache/logging/log4j/core/appender/rolling/action/DeletingVisitorTest.java:145-150 | Relativizing base/rel against base gives rel back. |
| Paths.RelativizeOutsideBase | log4j-core/src/test/java/org/apache/logging/log4j/core/appender/rolling/action/DeletingVisitorTest.java:130-151 | A file outside the base is reached by climbing out: /a/b/c relativized against /a/x is ../b/c. |
| DeletingVisitors.VisitDecision | log4j-core/src/test/java/org/apache/logging/log4j/core/appender/rolling/action/DeletingVisitorTest.java:60-151 | visitFile's decision fails exactly when there is a filter and the file and base are not both absolute or both relative. With no filter, every file is accepted and nothing changes. |
| DeletingVisitors.Selected | log4j-core/src/test/java/org/apache/logging/log4j/core/appender/rolling/action/DeletingVisitorTest.java:86-113 | Every filter accepts the file. An empty filter list selects every file. A file on the other side from the base is never selected when there is a filter. |
| DeletingVisitors.Deletes | log4j-core/src/test/java/org/apache/logging/log4j/core/appender/rolling/action/DeletingVisitorTest.java:115-127 | The file is deleted only when it is selected and not in test mode. Test mode deletes nothing, and an empty filter list deletes every file outside test mode. |
| DeletingVisitors.RelativeToABC | log4j-core/src/test/java/org/apache/logging/log4j/core/appender/rolling/action/DeletingVisitorTest.java:130-151 | /a/b/c/relative against base /a/b/c is the relative path "relative". |
| DeletingVisitors.DeletesIffEveryFilterHolds | log4j-core/src/test/java/org/apache/logging/log4j/core/appender/rolling/action/DeletingVisitorTest.java:86-113 | For filters without accumulators, the file is deleted exactly when the visitor is not in test mode and every filter holds for the file's path relative to the base. |
| DeletingVisitors.MismatchedFileIsIllegal | log4j-core/src/test/java/org/apache/logging/log4j/core/appender/rolling/action/DeletingVisitorTest.java:145-150 | With at least one filter, a file on the other side (absolute or relative) from the base is refused as an illegal argument. |
| DeletingVisitors.FixedFiltersUnderABC | log4j-core/src/test/java/org/apache/logging/log4j/core/appender/rolling/action/DeletingVisitorTest.java:86-113 | Fixed filters delete /a/b/c/any exactly when none of them is false and the visitor is not in test mode. |
| DeletingVisitors.VisitorExamples | log4j-core/src/test/java/org/apache/logging/log4j/core/appender/rolling/action/DeletingVisitorTest.java:60-127 | One accepting filter deletes and one rejecting filter does not. Accept, accept, reject does not delete. Three accepting filters delete. Test mode deletes nothing. |
| DeletingVisitors.VisitFileFailed | log4j-core/src/test/java/org/apache/logging/log4j/core/appender/rolling/action/DeletingVisitorTest.java:153-172 | The walk continues exactly when the failure is a vanished file (NoSuchFileException). Any other failure is handed back as the very same value. |
| DeletingVisitors.DeletingVisitor.constructor | log4j-core/src/test/java/org/apache/logging/log4j/core/appender/rolling/action/DeletingVisitorTest.java:48-58 | The visitor keeps its base path, filters and test mode, and starts with nothing deleted (the spy's recorded list) and nothing reported. |
| DeletingVisitors.DeletingVisitor.VisitFile | log4j-core/src/test/java/org/apache/logging/log4j/core/appender/rolling/action/DeletingVisitorTest.java:60-127 | The result and the condition fields are those that VisitDecision specifies. The deleted list grows by the file exactly when Deletes holds. In test mode, the reported list grows by the file exactly when it is selected, and nothing is deleted. |
| Actions.ThrowableText | log4j-core/src/test/java/org/apache/logging/log4j/core/appender/rolling/action/AbstractActionTest.java:38-40 | A throwable's text is its class name, followed by ": " and the message when it has one. |
| Actions.Reported | log4j-core/src/test/java/org/apache/logging/log4j/core/appender/rolling/action/AbstractActionTest.java:63-79 | Runtime and I/O exceptions are reported as they are. An Error is wrapped in a RuntimeException whose text is "java.lang.RuntimeException: " followed by the error's text. |
| Actions.ReportMessage | log4j-core/src/test/java/org/apache/logging/log4j/core/appender/rolling/action/AbstractActionTest.java:38-39 | The warning message starts with "Exception reported by action". |
| Actions.StatusEntries | log4j-core/src/test/java/org/apache/logging/log4j/core/appender/rolling/action/AbstractActionTest.java:28-79 | A run adds exactly one entry when the work throws, whatever its category, and none when it returns. Every entry is WARN, its formatted text starts with "Exception reported by action", and it carries the reported throwable. |
| Actions.ReportText | log4j-core/src/test/java/org/apache/logging/log4j/core/appender/rolling/action/AbstractActionTest.java:37-42 | For any fault, the entry reads "Exception reported by action 'class T' " followed by the reported throwable's text. |
| Actions.IOExceptionReport | log4j-core/src/test/java/org/apache/logging/log4j/core/appender/rolling/action/AbstractActionTest.java:28-43 | IOException("failed") gives one WARN entry, "Exception reported by action 'class T' java.io.IOException: failed". |
| Actions.AssertionErrorReport | log4j-core/src/test/java/org/apache/logging/log4j/core/appender/rolling/action/AbstractActionTest.java:63-79 | An AssertionError gives one WARN entry that names it inside a RuntimeException. |
| Actions.StatusLogger.Clear | log4j-core/src/test/java/org/apache/logging/log4j/core/appender/rolling/action/AbstractActionTest.java:30-31 | Clearing the status logger leaves no entries. |
| Actions.StatusLogger.Warn | log4j-core/src/test/java/org/apache/logging/log4j/core/appender/rolling/action/AbstractActionTest.java:33-36 | Logging at WARN appends one entry, with that level, message and throwable. |
| Actions.AbstractAction.Run | log4j-core/src/test/java/org/apache/logging/log4j/core/appender/rolling/action/AbstractActionTest.java:28-34 | Run always returns normally. On an action that is not interrupted, it appends StatusEntries for the work's outcome and marks the action complete and interrupted. On an interrupted action, it logs nothing. |
| Actions.AbstractAction.Close | log4j-core/src/test/java/org/apache/logging/log4j/core/appender/rolling/action/AbstractActionTest.java:28-34 | close() is not called in these tests. It sets the interrupted flag that run checks before doing the work and leaves complete as it was, so a run after close() changes nothing and logs nothing. The run at line 32 is on a fresh action, which is why it logs one entry (line 33). |
| Actions.AbstractAction.ReportException | log4j-core/src/test/java/org/apache/logging/log4j/core/appender/rolling/action/AbstractActionTest.java:37-42 | Reporting appends one WARN entry naming this action's class, with the exception attached. |

## Left out

- **Glob and regex matching.** Real matching (Java's `PathMatcher`) is a `Matcher` parameter. Only literal patterns are used in the example lemmas.
- **The status entry's text.** The timestamp, thread name and level that precede the message are not modelled. Neither are the stack-trace lines that follow the throwable's first line: they depend on the JVM.
- **The clock.** The clock reading is part of each visit, not a call to `System.currentTimeMillis`.
- **Physical deletion.** Deletion is recorded in `DeletingVisitor.deleted`, and test mode's log line in `DeletingVisitor.reported`. Failures of the delete call itself, and the log text, are not modelled.
- **Fixed-width arithmetic.** Thresholds, sizes, counts and ages are unbounded naturals, so Java `long` overflow does not arise.
- **Other size syntaxes.** Fractional sizes ("1.5 KB") and the terabyte unit are not modelled. Size text outside digits, an optional single space and B/KB/MB/GB is a configuration error.
- **Other duration elements.** Only days, hours, minutes and whole seconds are read. The year, month and week designators, fractional seconds and negative durations are not modelled.
- **Factory validation of thresholds and ages.** Non-positive thresholds and ages are not checked. Apart from the checks above, `IfAll`, `IfAny`, `IfLastModified` and `IfAccumulatedFileCount` are built with their datatype constructors.
- **Concurrency.** `run` is `synchronized` and the status log is process-wide and thread-safe. The model is sequential.
- **Cancellation inside `execute()`.** Cancellation is cooperative, so an `execute()` already running is not stopped. The outcome of `execute()` is a parameter of `Run`.
- **Probe arguments.** A probe records only the relative path it was given, not the base directory or attributes.
