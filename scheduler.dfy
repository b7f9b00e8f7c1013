/** Non-preemptive Shortest-Job-First scheduling of a batch of process records
    (`startCPUScheduler`): process 0 runs its first CPU burst, then every step runs the
    smallest next CPU burst among the processes not yet completed, until all are completed. */
module Scheduler {
  import opened Processes

  datatype Option<T> = None | Some(value: T)

  /** The eligibility test of the selection scan: the cursor is at most the size of the burst
      list (so it may sit one past the last burst) and the record is not completed. */
  predicate Eligible(p: ProcessInfo)
  {
    p.burstCompletedPos <= |p.burstList| && !p.isCompleted
  }

  /** The CPU burst under the cursor. */
  function Next(p: ProcessInfo): int
    requires p.burstCompletedPos < |p.burstList|
  {
    p.burstList[p.burstCompletedPos]
  }

  /** Every CPU burst that is still to run is at most the seed of the scan, so the scan can
      select it. */
  predicate PendingBounded(s: seq<ProcessInfo>)
  {
    forall i, j :: 0 <= i < |s| && s[i].burstCompletedPos <= j < |s[i].burstList| ==> s[i].burstList[j] <= NoBurst
  }

  // ---- selection ----

  /** `k` is the record the selection picks: eligible, its next burst at most the seed and at
      most every eligible next burst, and strictly below the next burst of every eligible record
      after it, so that of equal bursts the last one wins. */
  predicate IsShortest(s: seq<ProcessInfo>, k: int)
    requires AllConsistent(s)
  {
    0 <= k < |s| && Eligible(s[k]) && Next(s[k]) <= NoBurst &&
    (forall j :: 0 <= j < |s| && Eligible(s[j]) ==> Next(s[k]) <= Next(s[j])) &&
    (forall j :: k < j < |s| && Eligible(s[j]) ==> Next(s[k]) < Next(s[j]))
  }

  /** No eligible record has a next burst the scan could accept. */
  predicate NoneSelectable(s: seq<ProcessInfo>)
    requires AllConsistent(s)
  {
    forall j :: 0 <= j < |s| && Eligible(s[j]) ==> Next(s[j]) > NoBurst
  }

  /** What the scan knows after looking at the records before `i`: the record chosen so far
      (if any) and the smallest next burst seen. */
  predicate ScanSoFar(s: seq<ProcessInfo>, i: nat, chosen: Option<nat>, smallest: int)
    requires AllConsistent(s) && i <= |s|
  {
    match chosen
    case None =>
      smallest == NoBurst &&
      forall j :: 0 <= j < i && Eligible(s[j]) ==> Next(s[j]) > NoBurst
    case Some(c) =>
      c < i && Eligible(s[c]) && smallest == Next(s[c]) <= NoBurst &&
      (forall j :: 0 <= j < i && Eligible(s[j]) ==> Next(s[c]) <= Next(s[j])) &&
      (forall j :: c < j < i && Eligible(s[j]) ==> Next(s[c]) < Next(s[j]))
  }

  /** The selection scan, one record at a time, keeping the later record on a tie. */
  function Scan(s: seq<ProcessInfo>, i: nat, chosen: Option<nat>, smallest: int): Option<nat>
    requires AllConsistent(s) && i <= |s|
    decreases |s| - i
  {
    if i == |s| then chosen
    else if Eligible(s[i]) && Next(s[i]) <= smallest then Scan(s, i + 1, Some(i), Next(s[i]))
    else Scan(s, i + 1, chosen, smallest)
  }

  /** The record the selection picks, if any. */
  function Shortest(s: seq<ProcessInfo>): Option<nat>
    requires AllConsistent(s)
  {
    Scan(s, 0, None, NoBurst)
  }

  lemma {:induction false} ScanFinds(s: seq<ProcessInfo>, i: nat, chosen: Option<nat>, smallest: int)
    requires AllConsistent(s) && i <= |s| && ScanSoFar(s, i, chosen, smallest)
    ensures Scan(s, i, chosen, smallest).None? ==> NoneSelectable(s)
    ensures Scan(s, i, chosen, smallest).Some? ==> IsShortest(s, Scan(s, i, chosen, smallest).value)
    decreases |s| - i
  {
    if i < |s| {
      if Eligible(s[i]) && Next(s[i]) <= smallest {
        ScanFinds(s, i + 1, Some(i), Next(s[i]));
      } else {
        ScanFinds(s, i + 1, chosen, smallest);
      }
    }
  }

  /** At most one record meets the selection rule. */
  lemma ShortestUnique(s: seq<ProcessInfo>, a: int, b: int)
    requires AllConsistent(s) && IsShortest(s, a) && IsShortest(s, b)
    ensures a == b
  {
  }

  /** The scan picks `k` exactly when `k` meets the selection rule, and picks nothing exactly
      when no eligible next burst is at most the seed. */
  lemma ShortestCharacterised(s: seq<ProcessInfo>, k: nat)
    requires AllConsistent(s)
    ensures Shortest(s) == Some(k) <==> IsShortest(s, k)
    ensures Shortest(s) == None <==> NoneSelectable(s)
  {
    ScanFinds(s, 0, None, NoBurst);
    if IsShortest(s, k) {
      assert !NoneSelectable(s);
      ShortestUnique(s, k, Shortest(s).value);
    }
  }

  /** While some record is not completed and every pending burst is at most the seed, the scan
      picks a record. */
  lemma ShortestSome(s: seq<ProcessInfo>)
    requires AllConsistent(s) && PendingBounded(s) && CompletedCount(s) < |s|
    ensures Shortest(s).Some?
  {
    CompletedCountAll(s);
    var j :| 0 <= j < |s| && !s[j].isCompleted;
    assert Eligible(s[j]) && Next(s[j]) <= NoBurst;
    ShortestCharacterised(s, 0);
  }

  /** While the loop runs, the selected record exists and is eligible. */
  lemma ShortestEligible(s: seq<ProcessInfo>)
    requires AllConsistent(s) && PendingBounded(s) && CompletedCount(s) < |s|
    ensures Shortest(s).Some? && Shortest(s).value < |s| && Eligible(s[Shortest(s).value])
  {
    ShortestSome(s);
    ShortestCharacterised(s, Shortest(s).value);
  }

  // ---- one burst ----

  /** The start step: the burst under the cursor of process 0 runs from time 0; it never
      sets `isCompleted`. */
  function Start(p: ProcessInfo): ProcessInfo
    requires p.burstCompletedPos < |p.burstList|
  {
    p.(isSubmitted := true,
       burstCompletedPos := p.burstCompletedPos + 1,
       turnaroundTime := Next(p) - p.arrivalTime,
       waitingTime := 0)
  }

  /** The I/O wait charged for the burst at cursor `pos`: the I/O bursts up to and including
      position `pos`, as far as the I/O list goes. */
  function IoWait(io: seq<int>, pos: nat): int
  {
    SumSeq(io[..Min(pos + 1, |io|)])
  }

  /** A loop step on the selected record, the clock standing at `clock` before the burst. */
  function Execute(p: ProcessInfo, clock: int): ProcessInfo
    requires p.burstCompletedPos < |p.burstList|
  {
    var pos := p.burstCompletedPos + 1;
    p.(isSubmitted := true,
       waitingTime := clock - p.arrivalTime,
       turnaroundTime := clock + Next(p) - p.arrivalTime + IoWait(p.ioList, p.burstCompletedPos),
       burstCompletedPos := pos,
       isCompleted := if pos == |p.burstList| then true else p.isCompleted)
  }

  /** The start step runs exactly the burst under the cursor and leaves the job alone; the
      record stays consistent exactly when that was not its last burst (otherwise it is left
      eligible with no burst left to read). */
  lemma StartRunsOneBurst(p: ProcessInfo)
    requires Consistent(p) && Eligible(p)
    ensures Done(Start(p)) == Done(p) + [Next(p)] && SameJob(p, Start(p))
    ensures Start(p).turnaroundTime == Next(p) - p.arrivalTime && Start(p).waitingTime == 0
    ensures Start(p).isSubmitted && Start(p).isCompleted == p.isCompleted
    ensures Consistent(Start(p)) <==> p.burstCompletedPos + 1 < |p.burstList|
    ensures p.burstCompletedPos + 1 == |p.burstList| ==>
              Eligible(Start(p)) && Start(p).burstCompletedPos == |Start(p).burstList|
  {
    assert p.burstList[..p.burstCompletedPos + 1] == p.burstList[..p.burstCompletedPos] + [Next(p)];
  }

  /** A loop step runs exactly the burst under the cursor, keeps the record consistent and the
      job alone; the burst starts at the clock (waiting time plus arrival), and the turnaround is
      the waiting time plus the burst plus its I/O wait. */
  lemma ExecuteRunsOneBurst(p: ProcessInfo, clock: int)
    requires Consistent(p) && Eligible(p)
    ensures Consistent(Execute(p, clock)) && SameJob(p, Execute(p, clock)) && Execute(p, clock).isSubmitted
    ensures Done(Execute(p, clock)) == Done(p) + [Next(p)]
    ensures Execute(p, clock).waitingTime + p.arrivalTime == clock
    ensures Execute(p, clock).turnaroundTime ==
              Execute(p, clock).waitingTime + Next(p) + IoWait(p.ioList, p.burstCompletedPos)
  {
    assert p.burstList[..p.burstCompletedPos + 1] == p.burstList[..p.burstCompletedPos] + [Next(p)];
  }

  /** A loop step keeps every record consistent and every pending burst selectable. */
  lemma ExecuteKeepsConsistent(s: seq<ProcessInfo>, k: nat, clock: int)
    requires AllConsistent(s) && PendingBounded(s) && k < |s| && Eligible(s[k])
    ensures AllConsistent(s[k := Execute(s[k], clock)])
    ensures PendingBounded(s[k := Execute(s[k], clock)])
  {
    var t := s[k := Execute(s[k], clock)];
    ExecuteRunsOneBurst(s[k], clock);
    forall i, j | 0 <= i < |t| && t[i].burstCompletedPos <= j < |t[i].burstList|
      ensures t[i].burstList[j] <= NoBurst
    {
      assert s[i].burstCompletedPos <= j < |s[i].burstList|;
    }
  }

  /** What one loop step does to the sums over the collection: one burst fewer to run, one more
      run, and the run burst added to the time and to the multiset of bursts done. */
  lemma ExecuteStep(s: seq<ProcessInfo>, k: nat, clock: int)
    requires AllConsistent(s) && PendingBounded(s) && k < |s| && Eligible(s[k])
    ensures AllConsistent(s[k := Execute(s[k], clock)])
    ensures PendingBounded(s[k := Execute(s[k], clock)])
    ensures 0 <= Remaining(s[k := Execute(s[k], clock)]) < Remaining(s)
    ensures SumOver(s[k := Execute(s[k], clock)], DoneTime) == SumOver(s, DoneTime) + Next(s[k])
    ensures SumOver(s[k := Execute(s[k], clock)], DoneCount) == SumOver(s, DoneCount) + 1
    ensures BagOver(s[k := Execute(s[k], clock)], DoneBag) == BagOver(s, DoneBag) + multiset{Next(s[k])}
    ensures 0 <= CompletedCount(s[k := Execute(s[k], clock)]) <= |s|
  {
    var p := Execute(s[k], clock);
    var t := s[k := p];
    ExecuteKeepsConsistent(s, k, clock);
    ExecuteRunsOneBurst(s[k], clock);
    assert DoneTime(p) == DoneTime(s[k]) + Next(s[k]) by {
      SumSeqSnoc(Done(s[k]), Next(s[k]));
    }
    assert DoneBag(p) == DoneBag(s[k]) + multiset{Next(s[k])};
    assert RemainingOf(p) == RemainingOf(s[k]) - 1;
    SumOverUpdate(s, k, p, RemainingOf);
    SumOverUpdate(s, k, p, DoneTime);
    SumOverUpdate(s, k, p, DoneCount);
    BagOverUpdate(s, k, p, DoneBag, multiset{Next(s[k])});
    RemainingNonNegative(t);
    CompletedCountAll(t);
  }

  // ---- the whole run ----

  /** The state of the scheduler between two loop passes: the records, the CPU bursts in the
      order they ran (what the scheduler prints), and the clock (`totalCPUburst`). */
  datatype Run = Run(procs: seq<ProcessInfo>, order: seq<int>, clock: int)

  /** The loop goes on: the records are consistent, every pending burst is selectable, and
      some record is not completed. */
  predicate Running(r: Run)
  {
    AllConsistent(r.procs) && PendingBounded(r.procs) && CompletedCount(r.procs) < |r.procs|
  }

  /** One pass of the loop: select the shortest next burst and run it. */
  function Advance(r: Run): Run
    requires Running(r)
  {
    ShortestEligible(r.procs);
    var k := Shortest(r.procs).value;
    var d := Next(r.procs[k]);
    Run(r.procs[k := Execute(r.procs[k], r.clock)], r.order + [d], r.clock + d)
  }

  /** A pass keeps the records consistent and selectable and runs one burst fewer is left. */
  lemma AdvanceProgress(r: Run)
    requires Running(r)
    ensures AllConsistent(Advance(r).procs) && PendingBounded(Advance(r).procs)
    ensures 0 <= Remaining(Advance(r).procs) < Remaining(r.procs)
    ensures CompletedCount(Advance(r).procs) <= |Advance(r).procs|
  {
    ShortestEligible(r.procs);
    ExecuteStep(r.procs, Shortest(r.procs).value, r.clock);
  }

  /** The loop of the scheduler: pass after pass until every record is completed. */
  function Simulate(r: Run): Run
    requires Running(r)
    decreases Remaining(r.procs)
  {
    AdvanceProgress(r);
    var n := Advance(r);
    if CompletedCount(n.procs) == |n.procs| then n else Simulate(n)
  }

  /** What the scheduler requires of its input: at least one process, every cursor at 0 and no
      record completed, every process with a CPU burst and process 0 with at least two, and every
      burst the loop selects at most the seed of the scan. */
  predicate Loaded(s: seq<ProcessInfo>)
  {
    |s| > 0 && |s[0].burstList| >= 2 &&
    (forall i :: 0 <= i < |s| ==>
       s[i].burstCompletedPos == 0 && !s[i].isCompleted && |s[i].burstList| >= 1) &&
    (forall i, j :: 0 <= i < |s| && (if i == 0 then 1 else 0) <= j < |s[i].burstList| ==>
       s[i].burstList[j] <= NoBurst)
  }

  /** The state after the start step, in which process 0 runs its first burst from time 0. */
  function Started(s: seq<ProcessInfo>): Run
    requires Loaded(s)
  {
    Run(s[0 := Start(s[0])], [Next(s[0])], Next(s[0]))
  }

  /** The whole scheduler: the start step on process 0, then the loop. */
  function Schedule(s: seq<ProcessInfo>): Run
    requires Loaded(s)
  {
    StartState(s);
    Simulate(Started(s))
  }

  /** The times of a record are those of the last burst it ran. */
  predicate TimesOfLastRun(p: ProcessInfo)
    requires 0 < p.burstCompletedPos <= |p.burstList|
  {
    p.turnaroundTime ==
      p.waitingTime + p.burstList[p.burstCompletedPos - 1] + IoWait(p.ioList, p.burstCompletedPos - 1)
  }

  /** The loop invariant for record `i`: its job is that of the loaded record, it is
      consistent, its pending bursts are selectable, it is submitted once it has run, and its
      times are those of its last run (for process 0, once it has run in the loop). */
  predicate RecordTracks(s0: seq<ProcessInfo>, s: seq<ProcessInfo>, i: int)
  {
    0 <= i < |s| && i < |s0| && SameJob(s0[i], s[i]) && Consistent(s[i]) &&
    (forall j :: s[i].burstCompletedPos <= j < |s[i].burstList| ==> s[i].burstList[j] <= NoBurst) &&
    (s[i].burstCompletedPos > 0 ==> s[i].isSubmitted) &&
    (s[i].burstCompletedPos > (if i == 0 then 1 else 0) ==> TimesOfLastRun(s[i]))
  }

  predicate AllTrack(s0: seq<ProcessInfo>, s: seq<ProcessInfo>)
  {
    |s| == |s0| && forall i :: 0 <= i < |s| ==> RecordTracks(s0, s, i)
  }

  /** The invariant of the loop, relative to the loaded records `s0`: every record tracks its
      loaded one, and the bursts run so far are those done in the records and add up to the
      clock. */
  predicate Tracks(s0: seq<ProcessInfo>, r: Run)
  {
    AllTrack(s0, r.procs) &&
    r.clock == SumSeq(r.order) && r.clock == SumOver(r.procs, DoneTime) &&
    |r.order| == SumOver(r.procs, DoneCount) && multiset(r.order) == BagOver(r.procs, DoneBag)
  }

  lemma AllTrackRunnable(s0: seq<ProcessInfo>, s: seq<ProcessInfo>)
    requires AllTrack(s0, s)
    ensures AllConsistent(s) && PendingBounded(s)
  {
    forall i | 0 <= i < |s| ensures Consistent(s[i]) {
      assert RecordTracks(s0, s, i);
    }
    forall i, j | 0 <= i < |s| && s[i].burstCompletedPos <= j < |s[i].burstList|
      ensures s[i].burstList[j] <= NoBurst
    {
      assert RecordTracks(s0, s, i);
    }
  }

  /** After the start step the loop invariant holds and the loop runs. */
  lemma StartState(s: seq<ProcessInfo>)
    requires Loaded(s)
    ensures Tracks(s, Started(s)) && Running(Started(s))
  {
    var p := Start(s[0]);
    var t := s[0 := p];
    StartRunsOneBurst(s[0]);
    assert forall i :: 0 <= i < |s| ==> Done(s[i]) == [];
    SumOverBounds(s, DoneTime, 0, 0);
    SumOverBounds(s, DoneCount, 0, 0);
    BagOverNone(s, DoneBag);
    SumOverUpdate(s, 0, p, DoneTime);
    SumOverUpdate(s, 0, p, DoneCount);
    BagOverUpdate(s, 0, p, DoneBag, multiset{Next(s[0])});
    assert SumSeq([Next(s[0])]) == Next(s[0]) by { SumSeqSnoc([], Next(s[0])); }
    forall i | 0 <= i < |t| ensures RecordTracks(s, t, i) {
      if i == 0 {
        assert t[i] == p;
      } else {
        assert t[i] == s[i];
      }
    }
    AllTrackRunnable(s, t);
    CompletedCountAll(t);
  }

  /** Running the next burst of an eligible record keeps every record tracking its loaded one. */
  lemma StepRecords(s0: seq<ProcessInfo>, s: seq<ProcessInfo>, k: nat, clock: int)
    requires AllTrack(s0, s) && k < |s| && Consistent(s[k]) && Eligible(s[k])
    ensures AllTrack(s0, s[k := Execute(s[k], clock)])
  {
    var p := Execute(s[k], clock);
    var t := s[k := p];
    ExecuteRunsOneBurst(s[k], clock);
    forall i | 0 <= i < |t| ensures RecordTracks(s0, t, i) {
      assert RecordTracks(s0, s, i);
      if i == k {
        assert t[i] == p;
        assert TimesOfLastRun(p);
      } else {
        assert t[i] == s[i];
      }
    }
  }

  /** One pass of the loop keeps the loop invariant. */
  lemma StepTracks(s0: seq<ProcessInfo>, r: Run)
    requires Tracks(s0, r) && Running(r)
    ensures Tracks(s0, Advance(r))
  {
    ShortestEligible(r.procs);
    var k := Shortest(r.procs).value;
    var d := Next(r.procs[k]);
    ExecuteStep(r.procs, k, r.clock);
    StepRecords(s0, r.procs, k, r.clock);
    SumSeqSnoc(r.order, d);
    assert multiset(r.order + [d]) == multiset(r.order) + multiset{d};
  }

  /** A result of the loop: the invariant holds and every record is completed. */
  predicate Finished(s0: seq<ProcessInfo>, r: Run)
  {
    Tracks(s0, r) && CompletedCount(r.procs) == |r.procs|
  }

  /** Every pass keeps the invariant, and the loop ends with every record completed. */
  lemma {:induction false} SimulateKeeps(s0: seq<ProcessInfo>, r: Run)
    requires Tracks(s0, r) && Running(r)
    ensures Finished(s0, Simulate(r))
    decreases Remaining(r.procs)
  {
    AdvanceProgress(r);
    StepTracks(s0, r);
    var n := Advance(r);
    if CompletedCount(n.procs) != |n.procs| {
      SimulateKeeps(s0, n);
    }
  }

  /** The loop only appends to the order trace. */
  lemma {:induction false} SimulatePrefix(r: Run)
    requires Running(r)
    ensures r.order <= Simulate(r).order
    decreases Remaining(r.procs)
  {
    AdvanceProgress(r);
    if CompletedCount(Advance(r).procs) != |Advance(r).procs| {
      SimulatePrefix(Advance(r));
    }
  }

  /** Process 0 runs first: the order trace begins with its first CPU burst, whatever the
      arrival times and the other bursts. */
  lemma ScheduleStartsWithFirst(s: seq<ProcessInfo>)
    requires Loaded(s)
    ensures |Schedule(s).order| > 0 && Schedule(s).order[0] == s[0].burstList[0]
  {
    StartState(s);
    SimulatePrefix(Started(s));
  }

  /** The final records of the schedule, each tracking its loaded record, and all completed. */
  lemma ScheduleFinal(s: seq<ProcessInfo>, i: nat)
    requires Loaded(s) && i < |s|
    ensures |Schedule(s).procs| == |s| && Tracks(s, Schedule(s))
    ensures RecordTracks(s, Schedule(s).procs, i) && Schedule(s).procs[i].isCompleted
  {
    StartState(s);
    SimulateKeeps(s, Started(s));
    CompletedCountAll(Schedule(s).procs);
  }

  /** At the end every process is completed and submitted, its cursor at the end of its burst
      list, its job fields unchanged, and its times those of its last CPU burst: turnaround is
      waiting plus that burst plus the I/O bursts up to it. */
  lemma ScheduleCompletesAll(s: seq<ProcessInfo>)
    requires Loaded(s)
    ensures |Schedule(s).procs| == |s|
    ensures forall i :: 0 <= i < |s| ==>
      SameJob(s[i], Schedule(s).procs[i]) && Schedule(s).procs[i].isCompleted &&
      Schedule(s).procs[i].isSubmitted &&
      Schedule(s).procs[i].burstCompletedPos == |s[i].burstList|
    ensures forall i :: 0 <= i < |s| ==>
      Schedule(s).procs[i].turnaroundTime ==
        Schedule(s).procs[i].waitingTime + s[i].burstList[|s[i].burstList| - 1]
        + IoWait(s[i].ioList, |s[i].burstList| - 1)
  {
    var t := Schedule(s).procs;
    ScheduleFinal(s, 0);
    forall i | 0 <= i < |s|
      ensures SameJob(s[i], t[i]) && t[i].isCompleted && t[i].isSubmitted
      ensures t[i].burstCompletedPos == |s[i].burstList|
      ensures t[i].turnaroundTime == t[i].waitingTime + s[i].burstList[|s[i].burstList| - 1]
                                     + IoWait(s[i].ioList, |s[i].burstList| - 1)
    {
      ScheduleFinal(s, i);
    }
  }

  /** The loop runs once per CPU burst: the order trace holds every CPU burst of every process
      exactly once (a permutation), and the final clock is their sum. */
  lemma ScheduleRunsEveryBurst(s: seq<ProcessInfo>)
    requires Loaded(s)
    ensures |Schedule(s).order| == SumOver(s, BurstCount)
    ensures multiset(Schedule(s).order) == BagOver(s, BurstBag)
    ensures Schedule(s).clock == SumSeq(Schedule(s).order) == SumOver(s, BurstTime)
  {
    var t := Schedule(s).procs;
    ScheduleFinal(s, 0);
    forall i | 0 <= i < |s| ensures Done(t[i]) == s[i].burstList {
      ScheduleFinal(s, i);
    }
    SumOverPointwise(t, s, DoneCount, BurstCount);
    SumOverPointwise(t, s, DoneTime, BurstTime);
    BagOverPointwise(t, s, DoneBag, BurstBag);
  }

  // ---- the imperative scheduler ----

  /** While some record is not completed, the scan of the loop finds a record, and it is the
      one the selection rule picks. */
  lemma SelectionHappens(s: seq<ProcessInfo>, found: bool, k: nat)
    requires AllConsistent(s) && PendingBounded(s) && CompletedCount(s) < |s|
    requires found ==> IsShortest(s, k)
    requires !found ==> NoneSelectable(s)
    ensures found && Shortest(s) == Some(k)
  {
    ShortestSome(s);
    ShortestCharacterised(s, k);
  }

  /** The selection scan (one pass over the records). `found` is false only where the C code
      would go on with an unset pointer. */
  method SelectShortest(procs: array<ProcessInfo>) returns (found: bool, k: nat)
    requires AllConsistent(procs[..])
    ensures found ==> IsShortest(procs[..], k)
    ensures !found ==> NoneSelectable(procs[..])
  {
    found, k := false, 0;
    var smallestNextCPUburst := NoBurst;
    for i := 0 to procs.Length
      invariant ScanSoFar(procs[..], i, if found then Some(k) else None, smallestNextCPUburst)
    {
      var p := procs[i];
      if p.burstCompletedPos <= |p.burstList| && !p.isCompleted {
        var nextCPUburst := p.burstList[p.burstCompletedPos];
        if nextCPUburst <= smallestNextCPUburst {
          smallestNextCPUburst := nextCPUburst;
          found, k := true, i;
        }
      }
    }
  }

  /** The I/O wait of the burst at cursor `pos`: the loop over the I/O list that stops after
      position `pos`. */
  method ComputeIoWait(ioList: seq<int>, pos: nat) returns (iowaitingTime: int)
    ensures iowaitingTime == SumSeq(ioList[..Min(pos + 1, |ioList|)])
  {
    iowaitingTime := 0;
    var i := 0;
    while i < |ioList|
      invariant 0 <= i <= |ioList| && i <= pos
      invariant iowaitingTime == SumSeq(ioList[..i])
    {
      SumSeqPrefix(ioList, i);
      iowaitingTime := iowaitingTime + ioList[i];
      if i == pos {
        break;
      }
      i := i + 1;
    }
  }

  /** The completion count that decides whether the loop exits. */
  method CountCompleted(procs: array<ProcessInfo>) returns (completedCount: nat)
    ensures completedCount == CompletedCount(procs[..])
    ensures completedCount == procs.Length <==> forall i :: 0 <= i < procs.Length ==> procs[i].isCompleted
  {
    completedCount := 0;
    for i := 0 to procs.Length
      invariant completedCount == CompletedCount(procs[..i])
    {
      assert procs[..i + 1][..i] == procs[..i];
      if procs[i].isCompleted {
        completedCount := completedCount + 1;
      }
    }
    assert procs[..procs.Length] == procs[..];
    CompletedCountAll(procs[..]);
  }

  /** The start step of `startCPUScheduler`, in place on process 0; returns the clock. */
  method RunStart(procs: array<ProcessInfo>) returns (totalCPUburst: int)
    requires procs.Length > 0 && procs[0].burstCompletedPos < |procs[0].burstList|
    modifies procs
    ensures procs[..] == old(procs[..])[0 := Start(old(procs[0]))]
    ensures totalCPUburst == Next(old(procs[0]))
  {
    var first := procs[0];
    totalCPUburst := first.burstList[first.burstCompletedPos];
    procs[0] := first.(isSubmitted := true,
                       burstCompletedPos := first.burstCompletedPos + 1,
                       turnaroundTime := totalCPUburst - first.arrivalTime,
                       waitingTime := 0);
  }

  /** One pass of the loop body of `startCPUScheduler` after the selection: runs the next
      burst of record `k` in place, the clock standing at `clock`; returns the burst (the C
      local `currWaitingTime`). */
  method RunBurst(procs: array<ProcessInfo>, k: nat, clock: int) returns (burst: int)
    requires k < procs.Length && Consistent(procs[k]) && Eligible(procs[k])
    modifies procs
    ensures procs[..] == old(procs[..])[k := Execute(old(procs[k]), clock)]
    ensures burst == Next(old(procs[k]))
  {
    var p := procs[k];
    var waitingTime := clock - p.arrivalTime;
    burst := p.burstList[p.burstCompletedPos];
    var iowaitingTime := ComputeIoWait(p.ioList, p.burstCompletedPos);
    var pos := p.burstCompletedPos + 1;
    procs[k] := p.(isSubmitted := true,
                   waitingTime := waitingTime,
                   turnaroundTime := clock + burst - p.arrivalTime + iowaitingTime,
                   burstCompletedPos := pos,
                   isCompleted := if pos == |p.burstList| then true else p.isCompleted);
  }

  /** `startCPUScheduler`: runs the whole schedule in place over the records and returns the
      bursts in the order they ran and the final clock (`totalCPUburst`). */
  method StartCPUScheduler(procs: array<ProcessInfo>) returns (order: seq<int>, totalCPUburst: int)
    requires Loaded(procs[..])
    modifies procs
    ensures Run(procs[..], order, totalCPUburst) == Schedule(old(procs[..]))
    ensures forall i :: 0 <= i < procs.Length ==>
      procs[i].isCompleted && procs[i].burstCompletedPos == |procs[i].burstList|
    ensures totalCPUburst == SumOver(old(procs[..]), BurstTime)
    ensures |order| > 0 && order[0] == old(procs[0]).burstList[0]
  {
    ghost var s0 := procs[..];
    StartState(s0);
    // the start step: process 0 runs first
    totalCPUburst := RunStart(procs);
    order := [totalCPUburst];
    while true
      invariant Running(Run(procs[..], order, totalCPUburst))
      invariant Simulate(Run(procs[..], order, totalCPUburst)) == Schedule(s0)
      decreases Remaining(procs[..])
    {
      ghost var r := Run(procs[..], order, totalCPUburst);
      var found, k := SelectShortest(procs);
      SelectionHappens(r.procs, found, k);
      AdvanceProgress(r);
      var burst := RunBurst(procs, k, totalCPUburst);
      totalCPUburst := totalCPUburst + burst;
      order := order + [burst];
      assert Run(procs[..], order, totalCPUburst) == Advance(r);
      var completedCount := CountCompleted(procs);
      if completedCount == procs.Length {
        break;
      }
    }
    ScheduleCompletesAll(s0);
    ScheduleRunsEveryBurst(s0);
    ScheduleStartsWithFirst(s0);
    assert procs[..] == Schedule(s0).procs;
    forall i | 0 <= i < procs.Length
      ensures procs[i].isCompleted && procs[i].burstCompletedPos == |procs[i].burstList|
    {
      assert procs[i] == Schedule(s0).procs[i];
    }
  }
}
