# Shortest-Job-First CPU scheduling simulator — a Dafny model

`CPU_scheduling.c` reads a batch of processes. Each process has an identifier, an arrival
time, a list of CPU bursts and a list of I/O bursts. The program then simulates
non-preemptive Shortest-Job-First scheduling and prints, for every process, its waiting and
turnaround times, followed by the averages and the throughput.

This project models the core of that program and proves what it does.

- **`processes.dfy`** (module `Processes`): the `ProcessInfo` record. Its `IntList` members
  become sequences holding exactly their first `size` entries. The module also holds the sums
  over a collection of records that the contracts use: time and bursts done, bursts left,
  completed records, turnaround and waiting times.
- **`scheduler.dfy`** (module `Scheduler`): `startCPUScheduler`.
  - The specification is pure: the selection scan `Shortest`, the start step `Start`, one
    loop step `Execute`, one loop pass `Advance`, the loop `Simulate`, and the whole run
    `Schedule`.
  - The implementation is imperative: `StartCPUScheduler` changes the records in place in an
    `array<ProcessInfo>`. Its nested loops are the methods `SelectShortest`, `ComputeIoWait`
    and `CountCompleted`. Its ensures ties the final array, the order trace and the clock to
    `Schedule`.
- **`totals.dfy`** (module `Totals`): `calculateTotals`, a read-only pass proved equal to the
  specification `TotalsOf`.
- **`int_list.dfy`** (module `IntLists`): the fixed-capacity `IntList` buffer as a class,
  with `addNumToList` (`AddNum`) and `emptyList` (`Empty`).
- **`loader.dfy`** (module `Loader`): the step of `readDataFromFile` that turns one input line
  into a record. From position 2 on, the values at even positions are the CPU bursts and the
  values at odd positions are the I/O bursts.
- **`scenario.dfy`** (module `Scenarios`): one worked run on a two-process input.

Behaviour of the code that the model keeps as written:

- **Ties.** The selection compares with `<=`, so of several equal next bursts the one of the
  highest-indexed process wins. A burst equal to the seed 9999999 can still be selected; a
  larger one never can (`IsShortest`).
- **Start step.** Process 0 runs its first burst first, whatever the arrival times, and this
  step never sets `isCompleted`. A process 0 with a single CPU burst is therefore left eligible
  with its cursor past its last burst. The next scan then reads past the burst list, which is
  undefined behaviour, and the loop's exit test never counts that process. `StartRunsOneBurst`
  states this. The whole-run results therefore require process 0 to have at least two CPU
  bursts (`Loaded`).
- **No input errors.** The code has no error path for a malformed line, an empty batch or a
  division by zero. Out-of-range reads and uninitialised values are preconditions
  (`Loaded`). A division by zero is a `Ratio` with a zero denominator.
- **Waiting time.** It is set afresh at every run of a process: the clock before that burst
  minus the arrival time. Turnaround is likewise replaced: the clock after the burst, minus the
  arrival time, plus the I/O bursts up to and including the cursor's position.

## Model

| member | source | states |
|---|---|---|
| Scheduler.ShortestCharacterised | CPU_scheduling.c:110-134 | The scan picks record k exactly when k is eligible, its next burst is at most the seed and at most every eligible next burst, and strictly below those after it (last index wins ties); it picks nothing exactly when no eligible next burst is at most the seed |
| Scheduler.ScanFinds | CPU_scheduling.c:115-134 | Whatever the scan has seen so far, continuing it yields a record meeting the selection rule, or nothing only when no eligible record is selectable |
| Scheduler.ShortestEligible | CPU_scheduling.c:108-134 | While some record is not completed and pending bursts are at most the seed, the scan selects an existing, eligible record |
| Scheduler.SelectionHappens | CPU_scheduling.c:111-138 | While the loop runs, the scan's result is a record (the selected pointer is always set) and it is the one the selection rule picks |
| Scheduler.SelectShortest | CPU_scheduling.c:110-134 | The scan loop returns a record meeting the selection rule, or reports that no record is selectable |
| Scheduler.StartRunsOneBurst | CPU_scheduling.c:97-102 | The start step runs the burst under the cursor: the done bursts grow by it, the job fields are unchanged, waiting becomes 0, turnaround the burst minus the arrival, and isCompleted is left as it was, so a one-burst process 0 stays eligible with no burst left |
| Scheduler.RunStart | CPU_scheduling.c:97-102 | In place, only record 0 changes, to the start step of it, and the clock becomes its first burst |
| Scheduler.ExecuteRunsOneBurst | CPU_scheduling.c:137-171 | A loop step runs exactly the burst under the cursor, keeps the record consistent and the job unchanged, marks it submitted, sets waiting so that waiting plus arrival is the clock before the burst, and turnaround to waiting plus the burst plus its I/O wait |
| Scheduler.ExecuteKeepsConsistent | CPU_scheduling.c:168-171 | After a loop step every record is still consistent (completed exactly when its cursor reaches the end) and its pending bursts remain selectable |
| Scheduler.ExecuteStep | CPU_scheduling.c:137-171 | A loop step leaves one burst fewer to run, adds one run, adds the burst to the time done and to the multiset of bursts done, and keeps the completed count within the number of records |
| Scheduler.ComputeIoWait | CPU_scheduling.c:148-163 | The I/O loop with its early break sums the I/O bursts at positions 0 up to the cursor, as far as the I/O list goes |
| Scheduler.RunBurst | CPU_scheduling.c:137-171 | In place, only the selected record changes, to the loop step of it at the current clock, and the burst it ran is returned |
| Scheduler.CountCompleted | CPU_scheduling.c:174-181 | The counting loop returns the number of completed records, which equals the number of records exactly when every record is completed |
| Processes.CompletedCountAll | CPU_scheduling.c:174-186 | The completed count lies between 0 and the number of records, and reaches it exactly when every record is completed |
| Processes.RemainingNonNegative | CPU_scheduling.c:108-186 | The bursts left to run are never negative and are zero exactly when every record is completed, the measure on which the loop ends |
| Scheduler.AdvanceProgress | CPU_scheduling.c:108-186 | A loop pass keeps the records consistent and selectable and strictly decreases the bursts left to run |
| Scheduler.StartState | CPU_scheduling.c:94-104 | After the start step on a loaded batch, the loop invariant holds and the loop has work left |
| Scheduler.StepRecords | CPU_scheduling.c:137-171 | Running one burst keeps every record tracking its loaded record: same job, consistent, submitted once run, times those of its last run |
| Scheduler.StepTracks | CPU_scheduling.c:108-186 | A loop pass keeps the invariant: the clock is the sum of the bursts in the order trace and of the bursts done, and the trace holds exactly the bursts done |
| Scheduler.SimulateKeeps | CPU_scheduling.c:108-186 | From any state meeting the invariant, the loop ends with the invariant holding and every record completed |
| Scheduler.SimulatePrefix | CPU_scheduling.c:108-186 | The loop only appends to the order trace: the trace before the loop is a prefix of the trace after it |
| Scheduler.ScheduleStartsWithFirst | CPU_scheduling.c:97-104 | Process 0 runs first: the order trace of the whole run begins with process 0's first CPU burst |
| Scheduler.ScheduleFinal | CPU_scheduling.c:94-186 | Every final record tracks its loaded record and is completed |
| Scheduler.ScheduleCompletesAll | CPU_scheduling.c:94-186 | At the end every process is completed and submitted with its cursor at the end of its burst list and its job unchanged, and its turnaround is its last waiting time plus its last burst plus the I/O wait of that burst |
| Scheduler.ScheduleRunsEveryBurst | CPU_scheduling.c:94-186 | The loop runs once per CPU burst: the order trace is a permutation of all CPU bursts of all processes, and the final clock is their sum |
| Scheduler.StartCPUScheduler | CPU_scheduling.c:86-191 | The in-place scheduler leaves the array, the order trace and the clock equal to the whole run Schedule of the input, every record completed with its cursor at the end, the trace beginning with process 0's first burst, and the clock the sum of all CPU bursts |
| Scenarios.TwoProcessScenario | CPU_scheduling.c:94-186 | For two processes with bursts 5,3 and 2,4 and one I/O burst of 1 each, the bursts run as 5,2,3,4, the clock ends at 14, and the last waiting and turnaround times are 7 and 11, and 10 and 15 |
| Totals.CalculateTotals | CPU_scheduling.c:196-232 | The pass returns the total turnaround, the completed count, the two averages over the number of records and the throughput completed/total turnaround, as TotalsOf gives them |
| Totals.TotalsBounds | CPU_scheduling.c:207-230 | The completed count lies between 0 and the number of records, reaching it exactly when all are completed, and the average turnaround lies within any bounds of the turnaround times |
| Totals.TotalsOfScheduled | CPU_scheduling.c:207-232 | After the schedule every job is completed, so the throughput is the number of processes over the total turnaround, the averages are over a positive count, and total turnaround is total waiting plus each process's last burst and its I/O wait |
| IntLists.IntList.AddNum | CPU_scheduling.c:313-316 | The value is written at index size and size grows by one, so the list is the old list with the value appended and the rest of the buffer is unchanged |
| IntLists.IntList.Empty | CPU_scheduling.c:321-327 | The entries in use are zeroed, the rest of the buffer is unchanged, and the list is empty |
| Loader.SplitPositions | CPU_scheduling.c:285-291 | The k-th CPU burst is the value at position 2+2k and the k-th I/O burst the value at position 3+2k, with as many of each as there are such positions |
| Loader.SplitCovers | CPU_scheduling.c:285-291 | No value from position 2 on is lost: each is in the CPU or the I/O list, at the place its position gives it |
| Loader.LoadProcess | CPU_scheduling.c:270-291 | The record takes its identifier and arrival time from positions 0 and 1 of the line, starts with cursor 0 and no flag set, and its two burst lists are emptied and refilled with the parity split of the line |

## Left out

- File reading and `main`: `fopen`, `fscanf`, `feof`, the `-99` end-of-line sentinel and the counting of lines are not modelled. The loader is modelled from a line already gathered in an `IntList`.
- Console output: every `printf`, `printList` and `printProcessList`. The trace of bursts that `startCPUScheduler` prints is returned as the `order` sequence instead.
- Floating point: the averages and the throughput are exact `Ratio` numerator/denominator pairs. The rounding of `float` is not modelled, and neither is the `float` accumulation of the sums. A zero denominator stands for the infinity or NaN that C would produce.
- Integer width: all integers are unbounded, so the 32-bit overflow of sums and of the clock is not modelled.
- The `int` fields `avgWaitingTime`, `avgTurnaroundTime` and `throughput` of `ProcessList` are not modelled. Nothing writes them: `calculateTotals` uses `float` locals with the same names.
- `MAX_PROCESSLEN` and the `size` field of `ProcessList`: the records are an array whose length is the number of processes.
- Undefined behaviour is excluded by the preconditions of `Loaded`. This covers the read one past the burst list, the unset `smallestProcessInfo` when nothing is selectable, and a next burst above the seed 9999999.
- `Loaded` also excludes a process 0 with a single CPU burst, for which the loop never ends.
- Scheduler.StartCPUScheduler: the result is stated only for inputs meeting `Loaded`, because the source's behaviour on other inputs is undefined.
- LoadProcess: the waiting and turnaround times, which the source leaves as whatever `malloc` returned, are set to 0. The "invalid input data" message for lines shorter than 2 is output only; the record is still filled.
- AddNum: the source writes without checking the capacity, so the model requires `size < MaxListLen`.
- The heap allocation of `ProcessList` and of the line buffer is not modelled. `IntList`'s constructor stands for a zeroed buffer.
- `isSubmitted` is kept as a field, though nothing reads it.
