/** The process records of the Shortest-Job-First simulator and the sums over them that the
    scheduler and the statistics are specified with. */
module Processes {

  /** The seed of the scan for the smallest next CPU burst (`smallestNextCPUburst`). */
  const NoBurst := 9999999

  /** One process: the fields of the C `ProcessInfo` struct. `IntList` members hold exactly
      their first `size` entries; `isSubmitted` and `isCompleted` are the C 0/1 flags. */
  datatype ProcessInfo = ProcessInfo(
    processId: int,
    arrivalTime: int,
    burstList: seq<int>,
    isSubmitted: bool,
    isCompleted: bool,
    burstCompletedPos: nat,
    ioList: seq<int>,
    waitingTime: int,
    turnaroundTime: int)

  /** The record invariant: the cursor stays within the burst list, and the record is
      completed exactly when every CPU burst has run. */
  predicate Consistent(p: ProcessInfo)
  {
    p.burstCompletedPos <= |p.burstList| &&
    (p.isCompleted <==> p.burstCompletedPos == |p.burstList|)
  }

  predicate AllConsistent(s: seq<ProcessInfo>)
  {
    forall i :: 0 <= i < |s| ==> Consistent(s[i])
  }

  /** The fields the scheduler never writes are those of `a`. */
  predicate SameJob(a: ProcessInfo, b: ProcessInfo)
  {
    a.processId == b.processId && a.arrivalTime == b.arrivalTime &&
    a.burstList == b.burstList && a.ioList == b.ioList
  }

  function Min(a: int, b: int): int
  {
    if a <= b then a else b
  }

  /** Sum of a sequence, peeled from the back so that a running total over a prefix extends
      by one element. */
  function SumSeq(s: seq<int>): int
  {
    if s == [] then 0 else SumSeq(s[..|s| - 1]) + s[|s| - 1]
  }

  lemma SumSeqSnoc(s: seq<int>, x: int)
    ensures SumSeq(s + [x]) == SumSeq(s) + x
  {
    assert (s + [x])[..|s|] == s;
  }

  lemma SumSeqPrefix(s: seq<int>, i: nat)
    requires i < |s|
    ensures SumSeq(s[..i + 1]) == SumSeq(s[..i]) + s[i]
  {
    assert s[..i + 1][..i] == s[..i];
  }

  // ---- per-record views used by the sums below ----

  /** The CPU bursts of `p` that have already run. */
  function Done(p: ProcessInfo): seq<int>
  {
    p.burstList[..Min(p.burstCompletedPos, |p.burstList|)]
  }

  function RemainingOf(p: ProcessInfo): int { |p.burstList| - |Done(p)| }
  function DoneCount(p: ProcessInfo): int { |Done(p)| }
  function DoneTime(p: ProcessInfo): int { SumSeq(Done(p)) }
  function DoneBag(p: ProcessInfo): multiset<int> { multiset(Done(p)) }
  function BurstCount(p: ProcessInfo): int { |p.burstList| }
  function BurstTime(p: ProcessInfo): int { SumSeq(p.burstList) }
  function BurstBag(p: ProcessInfo): multiset<int> { multiset(p.burstList) }
  function CompletedOf(p: ProcessInfo): int { if p.isCompleted then 1 else 0 }
  function TurnaroundOf(p: ProcessInfo): int { p.turnaroundTime }
  function WaitingOf(p: ProcessInfo): int { p.waitingTime }

  // ---- sums over a collection of records ----

  /** `f` summed over the records, peeled from the back like `SumSeq`. */
  function SumOver(s: seq<ProcessInfo>, f: ProcessInfo -> int): int
  {
    if s == [] then 0 else SumOver(s[..|s| - 1], f) + f(s[|s| - 1])
  }

  /** The multiset union of `f` over the records. */
  function BagOver(s: seq<ProcessInfo>, f: ProcessInfo -> multiset<int>): multiset<int>
  {
    if s == [] then multiset{} else BagOver(s[..|s| - 1], f) + f(s[|s| - 1])
  }

  /** Number of records whose `isCompleted` flag is set. */
  function CompletedCount(s: seq<ProcessInfo>): int
  {
    SumOver(s, CompletedOf)
  }

  /** CPU bursts still to run, over all records. */
  function Remaining(s: seq<ProcessInfo>): int
  {
    SumOver(s, RemainingOf)
  }

  /** Replacing one record changes a sum by exactly the difference of its two terms. */
  lemma {:induction false} SumOverUpdate(s: seq<ProcessInfo>, k: nat, p: ProcessInfo, f: ProcessInfo -> int)
    requires k < |s|
    ensures SumOver(s[k := p], f) + f(s[k]) == SumOver(s, f) + f(p)
  {
    var n := |s| - 1;
    assert s[k := p][..n] == if k == n then s[..n] else s[..n][k := p];
    if k < n {
      SumOverUpdate(s[..n], k, p, f);
    }
  }

  /** Replacing one record by one whose bag is larger by `m` adds `m` to the union. */
  lemma {:induction false} BagOverUpdate(s: seq<ProcessInfo>, k: nat, p: ProcessInfo, f: ProcessInfo -> multiset<int>, m: multiset<int>)
    requires k < |s| && f(p) == f(s[k]) + m
    ensures BagOver(s[k := p], f) == BagOver(s, f) + m
  {
    var n := |s| - 1;
    assert s[k := p][..n] == if k == n then s[..n] else s[..n][k := p];
    if k < n {
      BagOverUpdate(s[..n], k, p, f, m);
      calc {
        BagOver(s[k := p], f);
        BagOver(s[..n][k := p], f) + f(s[n]);
        (BagOver(s[..n], f) + m) + f(s[n]);
        BagOver(s, f) + m;
      }
    }
  }

  /** A union of empty bags is empty. */
  lemma {:induction false} BagOverNone(s: seq<ProcessInfo>, f: ProcessInfo -> multiset<int>)
    requires forall i :: 0 <= i < |s| ==> f(s[i]) == multiset{}
    ensures BagOver(s, f) == multiset{}
  {
    if s != [] {
      BagOverNone(s[..|s| - 1], f);
    }
  }

  /** Two collections whose records agree term by term have the same sum. */
  lemma {:induction false} SumOverPointwise(s: seq<ProcessInfo>, t: seq<ProcessInfo>, f: ProcessInfo -> int, g: ProcessInfo -> int)
    requires |s| == |t|
    requires forall i :: 0 <= i < |s| ==> f(s[i]) == g(t[i])
    ensures SumOver(s, f) == SumOver(t, g)
  {
    if s != [] {
      SumOverPointwise(s[..|s| - 1], t[..|t| - 1], f, g);
    }
  }

  lemma {:induction false} BagOverPointwise(s: seq<ProcessInfo>, t: seq<ProcessInfo>, f: ProcessInfo -> multiset<int>, g: ProcessInfo -> multiset<int>)
    requires |s| == |t|
    requires forall i :: 0 <= i < |s| ==> f(s[i]) == g(t[i])
    ensures BagOver(s, f) == BagOver(t, g)
  {
    if s != [] {
      BagOverPointwise(s[..|s| - 1], t[..|t| - 1], f, g);
    }
  }

  /** A sum of terms that split in two is the sum of the two sums. */
  lemma {:induction false} SumOverAdd(s: seq<ProcessInfo>, t: seq<ProcessInfo>, f: ProcessInfo -> int, g: ProcessInfo -> int, h: ProcessInfo -> int)
    requires |s| == |t|
    requires forall i :: 0 <= i < |s| ==> f(s[i]) == g(s[i]) + h(t[i])
    ensures SumOver(s, f) == SumOver(s, g) + SumOver(t, h)
  {
    if s != [] {
      SumOverAdd(s[..|s| - 1], t[..|t| - 1], f, g, h);
    }
  }

  /** A sum of terms that all lie in [lo, hi] lies between |s| * lo and |s| * hi: the mean of
      the terms lies between their bounds. */
  lemma {:induction false} SumOverBounds(s: seq<ProcessInfo>, f: ProcessInfo -> int, lo: int, hi: int)
    requires forall i :: 0 <= i < |s| ==> lo <= f(s[i]) <= hi
    ensures |s| * lo <= SumOver(s, f) <= |s| * hi
  {
    if s != [] {
      var n := |s| - 1;
      SumOverBounds(s[..n], f, lo, hi);
      assert |s| * lo == n * lo + lo && |s| * hi == n * hi + hi;
    }
  }

  /** The completed count never exceeds the number of records, and reaches it exactly when
      every record is completed (the exit test of the scheduler loop). */
  lemma {:induction false} CompletedCountAll(s: seq<ProcessInfo>)
    ensures 0 <= CompletedCount(s) <= |s|
    ensures CompletedCount(s) == |s| <==> forall i :: 0 <= i < |s| ==> s[i].isCompleted
  {
    if s != [] {
      var n := |s| - 1;
      CompletedCountAll(s[..n]);
      assert forall i :: 0 <= i < n ==> s[..n][i] == s[i];
    }
  }

  /** With consistent records the work left is never negative, and it is zero exactly when
      every record is completed. */
  lemma {:induction false} RemainingNonNegative(s: seq<ProcessInfo>)
    requires AllConsistent(s)
    ensures 0 <= Remaining(s)
    ensures Remaining(s) == 0 <==> forall i :: 0 <= i < |s| ==> s[i].isCompleted
  {
    if s != [] {
      var n := |s| - 1;
      assert AllConsistent(s[..n]) by {
        forall i | 0 <= i < n ensures Consistent(s[..n][i]) { assert s[..n][i] == s[i]; }
      }
      RemainingNonNegative(s[..n]);
      assert forall i :: 0 <= i < n ==> s[..n][i] == s[i];
    }
  }
}
