# sigprofiler: a verified model of the sampling core

sigprofiler is a statistical profiler for Python programs. An interval timer
interrupts the program. The signal handler then walks the interrupted call
stack and adds to two counters, both keyed by call site `(code unit, line)`:

- the *self* counter (`_counter`) counts the innermost frame;
- the *cumulative* counter (`_cum_counter`) counts every code unit on the
  stack once per sample, at the line of its innermost frame.

At exit, a report lists both counters sorted by count, largest first. Each
line shows its share of the total number of samples.

This project models that core in Dafny:

- `callstack.dfy` (module `CallStack`): call sites and stacks. It also
  defines `Chosen(s)`, the declarative description of the call sites one
  sample credits in the cumulative counter, with its properties.
- `counters.dfy` (module `Counters`): the two `defaultdict(int)` maps and
  their sums. `SelfCounts(h)` and `CumCounts(h)` give what the maps hold
  after the samples `h`. The lemmas cover the sum, dominance and bounds.
- `timers.dfy` (module `Timers`): how `install` picks the timer and signal.
- `report.dfy` (module `Report`): `_print_profile`. It lists the items, sorts
  them in place by count and computes the percentages.
- `sigprofiler.dfy` (module `SigProfiler`): the process-wide state as a class
  `Profiler` with the two maps as fields. Its methods are the handler,
  `reset`, `install` and `_show_profile`. A ghost `history` holds the samples
  since the last reset. The invariant `Valid()` ties the fields to
  `SelfCounts(history)` and `CumCounts(history)`.
- `wrappers.dfy` (module `Wrappers`): `Option` and `Result`.

The handler's frame chain (`frame`, `frame.f_back`, ...) is a non-empty
sequence, innermost first. The handler is split in two. `Profiler.Sample`
does the innermost increments (lines 17-20). `Profiler.CountCallers` does the
`while f is not None` walk with its seen set (lines 21-29).

## Model

| member | source | states |
|---|---|---|
| CallStack.FirstIndex | sigprofiler.py:21-29 | the position of the innermost frame running a given code unit: that frame runs it and no frame inside it does |
| CallStack.ChosenStep | sigprofiler.py:24-29 | one step of the walk: a frame is credited exactly when its code unit is not among the codes of the frames inside it, and the seen set grows by its code unit |
| CallStack.CallerStep | sigprofiler.py:24-28 | a caller whose code unit is new to the walk is credited by that step and was not credited before |
| CallStack.InnermostChosen | sigprofiler.py:18-20 | the innermost call site is always among the call sites credited in the cumulative counter |
| CallStack.ChosenIsInnermostOccurrence | sigprofiler.py:21-29 | a call site is credited iff its code unit is on the stack and it is that code unit's innermost frame (both directions) |
| CallStack.OneChosenPerCode | sigprofiler.py:21-29 | two credited call sites of the same code unit are equal: each code unit adds to the cumulative counter at most once per sample |
| CallStack.ChosenCountPrefix | sigprofiler.py:21-29 | on every prefix of the walk, the number of credited call sites equals the number of distinct code units seen |
| CallStack.ChosenCount | sigprofiler.py:20-29 | one sample credits as many call sites as there are distinct code units on the stack |
| CallStack.RecursionCountedOnce | sigprofiler.py:21-29 | one code unit active at three lines is credited once, at its innermost line |
| Counters.Inc | sigprofiler.py:19-27 | `+= 1` on a `defaultdict(int)`: an absent key is inserted with count one, a present key gains one, every other key keeps its count |
| Counters.SumValues | sigprofiler.py:80 | `sum(_counter.values())` is zero for an empty counter and at least any single count |
| Counters.BumpCounts | sigprofiler.py:19-29 | the counter update adds one to each credited key and leaves every other key's count unchanged |
| Counters.SumRemove | sigprofiler.py:80 | the sum of a counter's values is one key's count plus the sum of the rest, whichever key is taken out |
| Counters.SumInc | sigprofiler.py:19 | `+= 1` on any key, present or absent, raises the sum by one |
| Counters.SumBump | sigprofiler.py:20-29 | one increment for each key of a set raises the sum by the size of the set |
| Counters.SelfStep | sigprofiler.py:17-19 | the handler's `_counter[key] += 1` turns the counts of samples h into the counts of h plus the new sample |
| Counters.CumStep | sigprofiler.py:20-29 | the innermost increment followed by the callers' increments is one increment of every credited key, and so gives the cumulative counts of h plus the new sample |
| Counters.TallySnoc | sigprofiler.py:19-29 | counting one more sample bumps the previous counts by the keys it credits |
| Counters.TallyIsHits | sigprofiler.py:19-29 | a key's count is the number of samples that credited it |
| Counters.TallyPositive | sigprofiler.py:19-20 | every key present in a counter has a count of at least one |
| Counters.TallyBounded | sigprofiler.py:20-29 | no count exceeds the number of samples |
| Counters.SumTally | sigprofiler.py:19-29 | the sum of a counter is the total number of credits handed out |
| Counters.SelfCredits | sigprofiler.py:19 | each sample hands out exactly one self credit |
| Counters.SelfTotal | sigprofiler.py:19 | sum invariant: after N samples since a reset, the self counts add up to N |
| Counters.CumCredits | sigprofiler.py:20-29 | each sample hands out one cumulative credit per distinct code unit on its stack |
| Counters.CumTotal | sigprofiler.py:20-29 | the cumulative counts add up to the number of distinct code units per sample, summed over the samples |
| Counters.SelfCountMeaning | sigprofiler.py:17-19 | a self count is the number of samples whose innermost frame is that call site |
| Counters.CumCountMeaning | sigprofiler.py:20-29 | a cumulative count is the number of samples in which that call site is the innermost frame of its code unit |
| Counters.Dominance | sigprofiler.py:19-20 | for every call site, the cumulative count is at least the self count |
| Counters.NoSamplesNoEntries | sigprofiler.py:31-33 | either counter is empty exactly when no sample was taken since the reset |
| Timers.SelectTimer | sigprofiler.py:44-52 | a timer is selected iff the target is `cpu`, `user` or `real`; the timer measures the clock the target names; the signal is the one that timer delivers |
| Report.EntrySetRemove | sigprofiler.py:62 | taking a key out of a counter takes exactly its one entry out of the item set |
| Report.EntrySetSize | sigprofiler.py:62 | a counter has as many items as keys |
| Report.ListingIsOnePerKey | sigprofiler.py:62 | an item list has one entry per key, with that key's count, and no key twice |
| Report.SumCounts | sigprofiler.py:80 | the loop computes the sum of the counter's values |
| Report.ItemsOf | sigprofiler.py:62 | `list(counter.items())` lists every entry of the counter exactly once |
| Report.Insert | sigprofiler.py:63 | one insertion pass extends the sorted prefix by one entry and permutes the array |
| Report.SortByCount | sigprofiler.py:63 | the in-place sort leaves the entries ordered by non-increasing count and is a permutation |
| Report.PrintProfile | sigprofiler.py:61-71 | fails with a division by zero iff the total is zero and the counter is not empty; otherwise one line per key, sorted by count, each with `100*count/total` |
| Report.Render | sigprofiler.py:81-84 | the report is the `=== time ===` header, then one row per self line in order, then the `== cumulative time ==` header, then one row per cumulative line in order |
| SigProfiler.Profiler.constructor | sigprofiler.py:9-10 | both counters start empty |
| SigProfiler.Profiler.Sample | sigprofiler.py:15-20 | one sample: the self counter gains one at the innermost key, the cumulative counter gains one at every credited key, and the invariant holds for the extended history |
| SigProfiler.Profiler.CountCallers | sigprofiler.py:21-29 | the walk bumps exactly the credited call sites other than the innermost one |
| SigProfiler.Profiler.Reset | sigprofiler.py:31-33 | both counters are empty afterwards, whatever they held, so a second reset changes nothing |
| SigProfiler.Profiler.Install | sigprofiler.py:41-55 | the counters are always cleared first; a known target yields its timer, signal and interval; an unknown one fails after the clearing |
| SigProfiler.Profiler.ShowProfile | sigprofiler.py:73-84 | never fails; the total is the number of samples and is zero iff both counters are empty; each section lists its counter once per key, sorted, with shares in (0, 100] |
| SigProfiler.Profiler.SharesInRange | sigprofiler.py:67-70 | every share printed from either counter lies in (0, 100] |
| SigProfiler.ShareBounds | sigprofiler.py:70 | a count between one and the total is a share in (0, 100] |

Notes on the code as written:

- An unknown `install` target fails only after `reset` has run (line 42).
  With no `else`, `sigtype` is unbound at line 54, so `Install` returns
  `Failure(UnboundLocal("sigtype"))` with both counters empty.
- `_sig_handler` has no path that drops a sample; `Sample` takes a non-empty
  stack.

## Left out

- The calls to the operating system (`signal.signal`, `setitimer`,
  `siginterrupt`, lines 54-58) are foreign calls. `Install` returns the
  timer, signal and interval it would pass to them.
- `uninstall` (lines 35-39) only calls `signal.gethandler` and
  `signal.sethandler`, which are not part of this model.
- Asynchronous signal delivery and concurrency are not modelled. Each sample
  is one atomic call of `Sample`.
- Profiler.ShowProfile: the report is modelled as running with no sample
  landing in between. The program does not ensure this: the timer stays
  armed while the report runs (lines 55, 116, 120, 123). A tick between
  line 80 and line 82 when the total is 0 makes line 70 raise
  `ZeroDivisionError`. Ticks between lines 80 and 84 can make listed counts
  exceed the total, so shares can exceed 100.
- `Profiler.Sample` requires a non-empty stack. Python may pass `None` as the
  frame, and `frame.f_code` then raises; that case is not modelled.
- Percentages are exact reals, not IEEE doubles. The `%20s:%-4d %20s %f`
  formatting and `basename` (lines 64, 67-71) and the `_outfile`/stderr
  file handling (lines 74-79, 85-86) are presentation and I/O. `Render` only fixes the
  section order: self section first, then cumulative.
- The order among entries with equal counts is not specified. It comes from
  the map's iteration order, which `ItemsOf` leaves unspecified.
- `_show_profile_handler`, `main`, option parsing, the `atexit` registration
  and the execution of the target script (lines 88-141) are command-line
  plumbing.
- example.py is a sample workload with no logic to model.
