/** The part of the input loader that turns one input line into a process record: the line is
    `processId arrivalTime cpu io cpu io ...`, and the values from position 2 on are dealt to
    the CPU burst list (even positions) and the I/O burst list (odd positions). */
module Loader {
  import opened IntLists
  import opened Processes

  /** The CPU bursts among the first `n` values of a line: positions 2, 4, ... below `n`,
      in order. */
  function CpuBursts(line: seq<int>, n: nat): seq<int>
    requires n <= |line|
  {
    if n <= 2 then []
    else CpuBursts(line, n - 1) + (if (n - 1) % 2 == 0 then [line[n - 1]] else [])
  }

  /** The I/O bursts among the first `n` values of a line: positions 3, 5, ... below `n`,
      in order. */
  function IoBursts(line: seq<int>, n: nat): seq<int>
    requires n <= |line|
  {
    if n <= 2 then []
    else IoBursts(line, n - 1) + (if (n - 1) % 2 == 1 then [line[n - 1]] else [])
  }

  lemma {:induction false} CpuBurstsPositions(line: seq<int>, n: nat)
    requires n <= |line|
    ensures |CpuBursts(line, n)| == (if n <= 2 then 0 else (n - 1) / 2)
    ensures forall k :: 0 <= k < |CpuBursts(line, n)| ==> CpuBursts(line, n)[k] == line[2 + 2 * k]
  {
    if n > 2 {
      CpuBurstsPositions(line, n - 1);
      var m := |CpuBursts(line, n - 1)|;
      if (n - 1) % 2 == 0 {
        assert m == (n - 2) / 2 && n - 1 == 2 + 2 * m;
      }
    }
  }

  lemma {:induction false} IoBurstsPositions(line: seq<int>, n: nat)
    requires n <= |line|
    ensures |IoBursts(line, n)| == (if n <= 2 then 0 else (n - 2) / 2)
    ensures forall k :: 0 <= k < |IoBursts(line, n)| ==> IoBursts(line, n)[k] == line[3 + 2 * k]
  {
    if n > 2 {
      IoBurstsPositions(line, n - 1);
      var m := |IoBursts(line, n - 1)|;
      if (n - 1) % 2 == 1 {
        assert m == (if n - 1 <= 2 then 0 else (n - 3) / 2) && n - 1 == 3 + 2 * m;
      }
    }
  }

  /** The split keeps every value and its order: the k-th CPU burst is the value at position
      2 + 2k and the k-th I/O burst the value at position 3 + 2k, and there are as many of each
      as there are such positions below `n`. */
  lemma SplitPositions(line: seq<int>, n: nat)
    requires n <= |line|
    ensures |CpuBursts(line, n)| == (if n <= 2 then 0 else (n - 1) / 2)
    ensures |IoBursts(line, n)| == (if n <= 2 then 0 else (n - 2) / 2)
    ensures forall k :: 0 <= k < |CpuBursts(line, n)| ==> CpuBursts(line, n)[k] == line[2 + 2 * k]
    ensures forall k :: 0 <= k < |IoBursts(line, n)| ==> IoBursts(line, n)[k] == line[3 + 2 * k]
  {
    CpuBurstsPositions(line, n);
    IoBurstsPositions(line, n);
  }

  /** No value is lost: every value from position 2 below `n` is in one of the two lists, at
      the place its position gives it. */
  lemma SplitCovers(line: seq<int>, n: nat, j: nat)
    requires n <= |line| && 2 <= j < n
    ensures j % 2 == 0 ==> (j - 2) / 2 < |CpuBursts(line, n)| && CpuBursts(line, n)[(j - 2) / 2] == line[j]
    ensures j % 2 == 1 ==> (j - 3) / 2 < |IoBursts(line, n)| && IoBursts(line, n)[(j - 3) / 2] == line[j]
  {
    SplitPositions(line, n);
  }

  /** The record the loader fills from one line, with the line's buffer read at positions 0 and
      1 for the identifier and the arrival time, the burst lists given, the cursor at 0 and no
      flag set. */
  function LineRecord(line: array<int>, bursts: seq<int>, io: seq<int>): ProcessInfo
    requires line.Length >= 2
    reads line
  {
    ProcessInfo(line[0], line[1], bursts, false, false, 0, io, 0, 0)
  }

  /** The body of `readDataFromFile` when a line ends: the record takes its identifier and
      arrival time from the line, the two burst lists of the record are emptied and refilled by
      the parity split of the line, and the record is returned. */
  method LoadProcess(line: IntList, bursts: IntList, io: IntList) returns (p: ProcessInfo)
    requires line.Valid() && bursts.Valid() && io.Valid()
    requires bursts != io && bursts != line && io != line
    requires bursts.list != io.list && bursts.list != line.list && io.list != line.list
    modifies bursts, bursts.list, io, io.list
    ensures bursts.Valid() && io.Valid()
    ensures bursts.Contents() == CpuBursts(line.Contents(), line.size)
    ensures io.Contents() == IoBursts(line.Contents(), line.size)
    ensures p == LineRecord(line.list, bursts.Contents(), io.Contents())
  {
    bursts.size := 0;
    io.size := 0;
    var i := 2;
    while i < line.size
      invariant bursts.Valid() && io.Valid() && 2 <= i && (i == 2 || i <= line.size)
      invariant bursts.Contents() == CpuBursts(line.Contents(), Min(i, line.size))
      invariant io.Contents() == IoBursts(line.Contents(), Min(i, line.size))
    {
      SplitPositions(line.Contents(), i);
      if i % 2 == 0 {
        bursts.AddNum(line.list[i]);
      } else {
        io.AddNum(line.list[i]);
      }
      i := i + 1;
    }
    p := LineRecord(line.list, bursts.Contents(), io.Contents());
  }
}
