/** The statistics the simulator prints after the schedule (`calculateTotals`): the total
    turnaround time, the number of completed jobs, the two averages and the throughput. */
module Totals {
  import opened Processes
  import opened Scheduler

  /** A quotient kept exact as numerator and denominator, standing for the `float` division of
      the source; a zero denominator stands for the infinity or NaN that division yields. */
  datatype Ratio = Ratio(num: int, den: int)

  datatype Totals = Totals(
    totalTurnaroundTime: int,
    totalCompletedJobs: int,
    avgTurnaround: Ratio,
    avgWaitingTime: Ratio,
    throughput: Ratio)

  /** The statistics of a collection of records: the sums over all records, the averages over
      their number, and the throughput as completed jobs over total turnaround. */
  function TotalsOf(s: seq<ProcessInfo>): Totals
  {
    Totals(SumOver(s, TurnaroundOf), CompletedCount(s),
           Ratio(SumOver(s, TurnaroundOf), |s|), Ratio(SumOver(s, WaitingOf), |s|),
           Ratio(CompletedCount(s), SumOver(s, TurnaroundOf)))
  }

  /** The completed jobs are at most the records, all of them exactly when every record is
      completed; and when every turnaround time lies in [lo, hi] so does the average. */
  lemma TotalsBounds(s: seq<ProcessInfo>, lo: int, hi: int)
    requires forall i :: 0 <= i < |s| ==> lo <= s[i].turnaroundTime <= hi
    ensures 0 <= TotalsOf(s).totalCompletedJobs <= |s|
    ensures TotalsOf(s).totalCompletedJobs == |s| <==> forall i :: 0 <= i < |s| ==> s[i].isCompleted
    ensures TotalsOf(s).avgTurnaround.den == |s|
    ensures TotalsOf(s).avgTurnaround.den * lo <= TotalsOf(s).avgTurnaround.num <= TotalsOf(s).avgTurnaround.den * hi
  {
    CompletedCountAll(s);
    SumOverBounds(s, TurnaroundOf, lo, hi);
  }

  /** The cost a process pays for its last CPU burst: the burst and the I/O wait charged with
      it. */
  function LastRunCost(p: ProcessInfo): int
  {
    if |p.burstList| == 0 then 0
    else p.burstList[|p.burstList| - 1] + IoWait(p.ioList, |p.burstList| - 1)
  }

  /** After the schedule every job is completed, so the throughput is the number of processes
      over the total turnaround time, the averages are over that number of processes, and the
      total turnaround is the total waiting plus the cost of every process's last burst. */
  lemma TotalsOfScheduled(s: seq<ProcessInfo>)
    requires Loaded(s)
    ensures TotalsOf(Schedule(s).procs).totalCompletedJobs == |s|
    ensures TotalsOf(Schedule(s).procs).throughput ==
              Ratio(|s|, TotalsOf(Schedule(s).procs).totalTurnaroundTime)
    ensures TotalsOf(Schedule(s).procs).avgTurnaround.den == |s| > 0
    ensures TotalsOf(Schedule(s).procs).totalTurnaroundTime ==
              SumOver(Schedule(s).procs, WaitingOf) + SumOver(s, LastRunCost)
  {
    var t := Schedule(s).procs;
    ScheduleCompletesAll(s);
    CompletedCountAll(t);
    SumOverAdd(t, s, TurnaroundOf, WaitingOf, LastRunCost);
  }

  /** `calculateTotals`: one pass over the records accumulating the two sums and the count, then
      the two averages over the number of records and the throughput. */
  method CalculateTotals(procs: array<ProcessInfo>) returns (t: Totals)
    ensures t == TotalsOf(procs[..])
  {
    var avgTurnaround := 0;
    var avgWaitingTime := 0;
    var totalCompletedJobs := 0;
    var totalTurnaroundTime := 0;
    var processesSize := procs.Length;
    for i := 0 to processesSize
      invariant avgTurnaround == SumOver(procs[..i], TurnaroundOf)
      invariant avgWaitingTime == SumOver(procs[..i], WaitingOf)
      invariant totalTurnaroundTime == SumOver(procs[..i], TurnaroundOf)
      invariant totalCompletedJobs == CompletedCount(procs[..i])
    {
      assert procs[..i + 1][..i] == procs[..i];
      var processTmp := procs[i];
      avgTurnaround := avgTurnaround + processTmp.turnaroundTime;
      avgWaitingTime := avgWaitingTime + processTmp.waitingTime;
      totalTurnaroundTime := totalTurnaroundTime + processTmp.turnaroundTime;
      if processTmp.isCompleted {
        totalCompletedJobs := totalCompletedJobs + 1;
      }
    }
    assert procs[..processesSize] == procs[..];
    t := Totals(totalTurnaroundTime, totalCompletedJobs,
                Ratio(avgTurnaround, processesSize), Ratio(avgWaitingTime, processesSize),
                Ratio(totalCompletedJobs, totalTurnaroundTime));
  }
}
