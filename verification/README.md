# Vaccine-acceptance wave fetcher, modelled in Dafny

The two Python scripts `lab4thread.py` and `lab4process.py` let a user pick
US states, fetch a survey's "vaccine acceptance" figure for each state across
a fixed number of survey waves, repair missing waves, and plot the results.
The logic modelled here is the part that is not GUI or plotting:

- **Wave collection.** For each wave, the parsed reply either lacks the
  weighted 'Yes' field (a KeyError in the source) or carries 'Yes' and,
  optionally, 'I have already been vaccinated'. The wave's raw value is Yes
  plus the already-vaccinated figure (0 when absent). A first wave without
  'Yes' stops the loop with an empty series; a later one contributes 0. The
  threaded variant queries waves 1..16 one by one and keeps the
  already-vaccinated figure of wave 16 (by position). The multiprocess
  variant fetches one timeseries document, deletes its "all" entry, walks the
  remaining entries in document order, and keeps the figure of the entry
  keyed `"wave15"` (by key).
- **Zero repair.** A single left-to-right pass over the list, in place: a
  zero at index i becomes the mean of the already repaired entry i-1 (Python's
  index -1, the last entry, when i is 0) and the original entry i+1. On a
  trailing zero the threaded variant raises IndexError; the multiprocess
  variant catches it and copies the predecessor.
- **Partition.** The sequential batch `getVaccineDataForStates` sorts states
  into `state_data` and `no_data_states` in input order. The threaded
  `selectedStates` reports a queued result missing when its series is empty.
  The multiprocess `selectedStates` reports it missing when its series
  equals `[0]`.

Files: `wave_data.dfy` (module `WaveData`: replies, results, errors),
`lab4_thread.dfy` (module `ThreadVariant`), `lab4_process.dfy` (module
`ProcessVariant`), `comparison.dfy` (module `VariantComparison`).

The network is a parameter. `ThreadVariant.Survey` maps a state code and a
wave number to a parsed reply. `ProcessVariant.Timeseries` maps a state code
to a parsed document, that is, its keys in order with their replies. The
name-to-code table is an abstract `map<string, string>`. Percentages are
`real`. The Python exceptions that escape the fetch routine are modelled as
`Err(IndexError)` and `Err(KeyError)`.

A trailing zero copies the repaired predecessor in the multiprocess variant,
so `[10, 20, 0]` becomes `[10, 20, 20]` (`lab4process.py:127-128`). Only the
threaded variant classifies a result as missing by an empty series; the
multiprocess variant tests for `[0]` (see Findings).

## Model

| member | source | states |
|---|---|---|
| `ThreadVariant.CollectWaves` | lab4thread.py:101-124 | The wave loop reports no data exactly when wave 1 lacks 'Yes'. Otherwise its series has one raw value per wave in wave order, and its final figure is wave 16's already-vaccinated value (0 if absent). |
| `ThreadVariant.Repaired` | lab4thread.py:126-128 | The repaired series has the input's length and keeps every non-zero entry. A zero at i > 0 becomes the mean of repaired entry i-1 and original entry i+1. A zero at 0 becomes the mean of the last entry and entry 1. The function is defined exactly when the last entry is non-zero. |
| `ThreadVariant.RepairInPlace` | lab4thread.py:126-128 | The in-place pass succeeds exactly when the list is empty or its last entry is non-zero; the array then equals `Repaired` of its old contents. Otherwise (IndexError) every entry before the trailing zero is already repaired and the zero is left in place. |
| `ThreadVariant.RepairedPositive` | lab4thread.py:126-128 | A non-negative series with a positive last entry has only positive entries after repair, even across consecutive zeros. |
| `ThreadVariant.RepairExamples` | lab4thread.py:126-128 | `[10,0,0,20]` becomes `[10,5,12.5,20]`. `[0,10,20]` becomes `[15,10,20]`, because index -1 reads the last entry. |
| `WaveData.RawSeriesSpec` | lab4thread.py:101-124 | The raw series both variants' loops build is empty when the first wave lacks 'Yes'. Otherwise it has one value per wave, in order: Yes plus the already-vaccinated figure, or 0 for a later wave without 'Yes'. |
| `ThreadVariant.FetchState` | lab4thread.py:101-128 | The loop body the batch and the per-thread fetch share (collection, then repair) takes the no-data branch exactly when wave 1 lacks 'Yes'. It yields `StateOutcome` of the state's replies. |
| `ThreadVariant.GetVaccineDataForState` | lab4thread.py:137-171 | The per-thread fetch returns the tuple, or IndexError, given by `StateOutcome` on the replies of waves 1..16. |
| `ThreadVariant.StateOutcomeSpec` | lab4thread.py:137-171 | If wave 1 lacks 'Yes', the result is the state with an empty series and 0. IndexError is raised exactly when wave 1 answers and the last wave's raw value is 0. Otherwise the series has one entry per wave, each non-zero raw value is kept in place, and the final figure is the last wave's already-vaccinated value. |
| `ThreadVariant.UnknownStateHasNoData` | lab4thread.py:103-119 | A state name missing from the table has no data and yields an empty series, because its lookup sits in the same try as the 'Yes' lookup. |
| `ThreadVariant.LastWaveWithoutYesRaises` | lab4thread.py:116-128 | If wave 1 answers and wave 16 lacks 'Yes', the fetch raises IndexError. |
| `ThreadVariant.GetVaccineDataForStates` | lab4thread.py:93-134 | The sequential batch returns exactly `BatchOutcome`. Its loop keeps the invariant that every name in `no_data_states` has no data, so the `state not in no_data_states` test is the no-data branch. |
| `ThreadVariant.AddState` | lab4thread.py:97-131 | One pass of the batch loop raises exactly when the state's fetch does. Otherwise the state's result is appended to `state_data` when it has data, and its name to `no_data_states` when it has none. The names in `no_data_states` stay names of states without data. |
| `ThreadVariant.BatchStep` | lab4thread.py:97-131 | One more state either raises, adds its result to `state_data` when it has data, or adds its name to `no_data_states`. |
| `ThreadVariant.BatchErrExtends` | lab4thread.py:126-128 | Once a state raises IndexError, the whole batch raises it. |
| `ThreadVariant.BatchPartitions` | lab4thread.py:97-131 | In a completed batch, `state_data` holds the states with data and `no_data_states` the others, each in input order. Together they hold each input state once (multiset equality). Every plotted series has 16 entries. |
| `ThreadVariant.BatchKeepsOrder` | lab4thread.py:97-131 | The names in `state_data` are the input states with data, in order. `no_data_states` is the input states without data, in order. Each plotted series has 16 entries. |
| `ThreadVariant.DataSplitCoversInput` | lab4thread.py:97-131 | The states with data and those without together form the input list, as a multiset. |
| `ThreadVariant.BatchFailsIff` | lab4thread.py:93-134 | The batch raises exactly when some input state answers wave 1 and has a raw value of 0 in its last wave. |
| `ThreadVariant.BatchFailsOnlyIfRaises` | lab4thread.py:126-128 | A batch that raises names a state whose wave 1 answers and whose last wave's raw value is 0. |
| `ThreadVariant.BatchFailsIfRaises` | lab4thread.py:126-128 | Any such state in the input makes the whole batch raise. |
| `ThreadVariant.BatchStepErr` | lab4thread.py:97-131 | After a prefix that completes, the next state makes the batch raise exactly when its own fetch raises. |
| `ThreadVariant.ClassifyQueued` | lab4thread.py:214-220 | Draining the queue produces `ClassifyThreaded` of the results in the order they are taken. |
| `ThreadVariant.ClassifyPartitions` | lab4thread.py:214-220 | Each queued result lands in exactly one list, once per time it was queued. Each result with a non-empty series is kept exactly as often as it was queued, and no other result is kept. The kept names plus the missing names equal the queued names as multisets, so each empty-series occurrence contributes its name once. |
| `ThreadVariant.ThreadedMatchesBatch` | lab4thread.py:214-220 | The threaded path and the sequential batch give the same two lists: same error, same order when the queue yields results in state order. |
| `ThreadVariant.ClassifyAppend` | lab4thread.py:214-220 | Classifying a concatenated queue concatenates both lists. |
| `ThreadVariant.ClassifyIgnoresOrder` | lab4thread.py:214-220 | Any order in which the queue hands out the same results gives the same two lists as multisets. |
| `ProcessVariant.FinalWaveKey` | lab4process.py:107 | The key compared against is `"wave15"`. |
| `ProcessVariant.WithoutAll` | lab4process.py:98-99 | After the deletion, no entry is keyed "all" and every other entry remains. |
| `ProcessVariant.WithoutAllRemovesOne` | lab4process.py:98-99 | With distinct keys, deleting "all" at position j leaves exactly the entries before j followed by those after j, in document order. |
| `ProcessVariant.WithoutAllNoop` | lab4process.py:98-99 | A document without "all" is left unchanged. |
| `ProcessVariant.WithoutAllDistinct` | lab4process.py:98-99 | Deleting "all" keeps the keys distinct. |
| `ProcessVariant.CollectEntries` | lab4process.py:101-121 | The entry loop returns the same raw series as the threaded wave loop (`RawSeries`), taken over the entries' replies in document order, and `EntryFinal` of the document. |
| `ProcessVariant.FinalFromWaveKey` | lab4process.py:107-108 | With distinct keys and a first entry that answers, the final figure is the already-vaccinated value of the entry keyed `"wave15"`, wherever it sits (0 if that field is absent). |
| `ProcessVariant.FinalUpToKey` | lab4process.py:107-108 | After the loop has seen k entries, the final figure is that of the `"wave15"` entry if it is among them, else 0. |
| `ProcessVariant.NoWaveKeyNoFinal` | lab4process.py:107-108 | Without a `"wave15"` key, the final figure stays 0. |
| `ProcessVariant.Repaired` | lab4process.py:123-128 | The repaired series has the input's length and keeps every non-zero entry. An interior zero becomes the mean of its repaired predecessor and its successor. A zero at 0 becomes the mean of the last entry and entry 1. A trailing zero copies its repaired predecessor. A one-entry series is unchanged. |
| `ProcessVariant.RepairInPlace` | lab4process.py:123-128 | The in-place pass, with its IndexError fallback, leaves the array equal to `Repaired` of its old contents. |
| `ProcessVariant.RepairExamples` | lab4process.py:123-128 | `[10,0,20]` becomes `[10,15,20]`, `[10,20,0]` becomes `[10,20,20]`, and `[0]` stays `[0]`. |
| `ProcessVariant.RepairedPositive` | lab4process.py:123-128 | A non-negative series with a positive first entry has only positive entries after repair. |
| `ProcessVariant.GetVaccineDataForState` | lab4process.py:90-131 | An unknown state name raises KeyError. Otherwise the fetch yields `StateOutcome` of the document fetched for the state's code. |
| `ProcessVariant.StateOutcomeSpec` | lab4process.py:90-131 | If the first entry other than "all" lacks 'Yes', the series is empty and the final figure is 0. Otherwise the series has exactly one value per entry other than "all", and each non-zero raw value is kept in place. |
| `ProcessVariant.ClassifyQueued` | lab4process.py:176-183 | Draining the queue produces `ClassifyAsWritten` of the results in the order they are taken. |
| `ProcessVariant.ClassifyPartitions` | lab4process.py:176-183 | Each queued result lands in exactly one list, once per time it was queued. Each result whose series is not `[0]` is kept exactly as often as it was queued, and no other result is kept. The kept names plus the missing names equal the queued names as multisets, so each `[0]` occurrence contributes its name once. |
| `ProcessVariant.EmptySeriesIsPlotted` | lab4process.py:180-183 | As written, a state whose first entry lacks 'Yes' gets an empty series. It is kept for plotting and is not reported missing. |
| `ProcessVariant.AsWrittenMissingOnlySingleZero` | lab4process.py:180-183 | As written, a state is reported missing only if its document has exactly one entry besides "all", and that entry answers with a raw value of 0. |
| `VariantComparison.RepairsAgree` | lab4process.py:123-128 | Wherever the threaded repair is defined, the multiprocess repair gives the same series. |
| `VariantComparison.RepairedAtAgree` | lab4process.py:123-128 | The two passes agree index by index when the last entry is non-zero. |
| `VariantComparison.TrailingZeroExample` | lab4thread.py:126-128 | Take sixteen waves at 60 whose last wave lacks 'Yes'. The threaded fetch raises, while the multiprocess repair sets the trailing entry to 60. |
| `VariantComparison.CorrectedClassification` | lab4process.py:180-183 | Classify the multiprocess results by an empty series instead. Then a state is reported missing exactly when its first entry besides "all" lacks 'Yes' or it has no such entry. |

## Findings

| source | as written | input that shows it | evidently intended | confidence | as-written member | corrected member |
|---|---|---|---|---|---|---|
| lab4process.py:180 | a result is reported missing when `state[1] == [0]` | a state whose first timeseries entry lacks 'Yes': the loop stops with the series `[]`, which is not `[0]`, so the state goes to the plotted results with no values | `state[1] == []`, the test the threaded variant uses (lab4thread.py:217) | not executed; high | `ProcessVariant.EmptySeriesIsPlotted` | `VariantComparison.CorrectedClassification` |
| lab4thread.py:128 | a zero entry reads `acceptance_rate_list[idx + 1]` without a guard | waves 1..15 answer 'Yes' and wave 16 lacks it: the last entry is 0 and the repair raises IndexError. The thread then queues nothing, and `selectedStates` blocks on its last `my_queue.get()`. | copy the predecessor, as the multiprocess variant's handler does (lab4process.py:127-128) | not executed; high | `ThreadVariant.LastWaveWithoutYesRaises` | `VariantComparison.RepairsAgree` |

## Left out

- The HTTP requests and `json.loads` are not modelled. The parsed replies are parameters (`Survey`, `Timeseries`). A connection error, a JSON decode error or a `float()` ValueError propagates in the source and is not modelled; only the KeyError paths are.
- The nested lookup `['vaccine_accept']['weighted'][...]` is collapsed into `WaveReply`. A missing level anywhere reads as `NoYes` or as an absent already-vaccinated figure.
- Threads, processes, `queue.Queue`, `mp.Queue`, `join` and the `storeInQueue` decorator are not modelled. Queue order is nondeterministic, so the drained results are a sequence in arbitrary order (`ClassifyIgnoresOrder` covers reordering).
- When a worker raises, it queues nothing and `selectedStates` then blocks forever on `get()`. This is modelled only as the `Err` of `ThreadResults` / `GetVaccineDataForState`, not as a hang.
- The tkinter `MainWindow` and `PlotWindow`, the message boxes, `plotStates`, `plotVaccinationRate` and `saveData` are GUI, plotting and file I/O.
- `time` and `print` are timing and logging only.
- Floating-point rounding is not modelled: percentages are `real`. Python's int 0 versus float 0.0 is not distinguished.
- The 50 entries of the name-to-code table are not transcribed; the table is an abstract map used only for membership and for the code it yields.
