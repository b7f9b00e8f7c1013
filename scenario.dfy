/** A worked run of the scheduler on a small input: two processes arriving at time 0, with CPU
    bursts 5, 3 and 2, 4 and one I/O burst of 1 each. */
module Scenarios {
  import opened Processes
  import opened Scheduler

  /** A record as the loader leaves it, arriving at time 0. */
  function Fresh(id: int, bursts: seq<int>, io: seq<int>): ProcessInfo
  {
    ProcessInfo(id, 0, bursts, false, false, 0, io, 0, 0)
  }

  function Input(): seq<ProcessInfo>
  {
    [Fresh(1, [5, 3], [1]), Fresh(2, [2, 4], [1])]
  }

  // The states of the run: after the start step and after each pass of the loop.

  function A1(): ProcessInfo
  {
    Input()[0].(isSubmitted := true, burstCompletedPos := 1, turnaroundTime := 5, waitingTime := 0)
  }

  function A2(): ProcessInfo
  {
    A1().(waitingTime := 7, turnaroundTime := 11, burstCompletedPos := 2, isCompleted := true)
  }

  function B1(): ProcessInfo
  {
    Input()[1].(isSubmitted := true, waitingTime := 5, turnaroundTime := 8, burstCompletedPos := 1)
  }

  function B2(): ProcessInfo
  {
    B1().(waitingTime := 10, turnaroundTime := 15, burstCompletedPos := 2, isCompleted := true)
  }

  function R0(): Run { Run([A1(), Input()[1]], [5], 5) }
  function R1(): Run { Run([A1(), B1()], [5, 2], 7) }
  function R2(): Run { Run([A2(), B1()], [5, 2, 3], 10) }
  function R3(): Run { Run([A2(), B2()], [5, 2, 3, 4], 14) }

  lemma IoWaitOne(pos: nat)
    ensures IoWait([1], pos) == 1
  {
    assert [1][..Min(pos + 1, 1)] == [1];
    SumSeqSnoc([], 1);
  }

  /** The start step runs process 1's burst of 5. */
  lemma StartsWithFirst()
    ensures Loaded(Input()) && Started(Input()) == R0() && Running(R0())
  {
    StartState(Input());
  }

  /** Process 2's burst of 2 is the shortest next burst. */
  lemma FirstPass()
    ensures Running(R0()) && Advance(R0()) == R1() && Running(R1())
  {
    StartsWithFirst();
    assert Scan(R0().procs, 1, Some(0), 3) == Some(1);
    IoWaitOne(0);
    AdvanceProgress(R0());
    CompletedCountAll(R1().procs);
  }

  /** Process 1's burst of 3 beats process 2's burst of 4. */
  lemma SecondPass()
    ensures Running(R1()) && Advance(R1()) == R2() && Running(R2())
  {
    FirstPass();
    assert Scan(R1().procs, 1, Some(0), 3) == Some(0);
    IoWaitOne(1);
    AdvanceProgress(R1());
    CompletedCountAll(R2().procs);
  }

  /** Only process 2 is left, and its burst of 4 completes the run. */
  lemma ThirdPass()
    ensures Running(R2()) && Advance(R2()) == R3() && CompletedCount(R3().procs) == 2
  {
    SecondPass();
    assert Scan(R2().procs, 1, None, NoBurst) == Some(1);
    IoWaitOne(1);
    CompletedCountAll(R3().procs);
  }

  /** The bursts run in the order 5, 2, 3, 4 and the clock ends at 14; process 1 last waits 7
      and turns around at 11, process 2 last waits 10 and turns around at 15. */
  lemma TwoProcessScenario()
    ensures Loaded(Input())
    ensures Schedule(Input()).order == [5, 2, 3, 4] && Schedule(Input()).clock == 14
    ensures Schedule(Input()) == R3()
    ensures R3().procs[0].waitingTime == 7 && R3().procs[0].turnaroundTime == 11
    ensures R3().procs[1].waitingTime == 10 && R3().procs[1].turnaroundTime == 15
  {
    StartsWithFirst();
    FirstPass();
    SecondPass();
    ThirdPass();
    SimulateLast(R2(), R3());
    SimulateThrough(R1(), R2());
    SimulateThrough(R0(), R1());
  }

  lemma SimulateThrough(r: Run, n: Run)
    requires Running(r) && Advance(r) == n && Running(n)
    ensures Simulate(r) == Simulate(n)
  {
  }

  lemma SimulateLast(r: Run, n: Run)
    requires Running(r) && Advance(r) == n && CompletedCount(n.procs) == |n.procs|
    ensures Simulate(r) == n
  {
  }
}
