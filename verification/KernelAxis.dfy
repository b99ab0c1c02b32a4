/** The numeric methods of aerialvision/guiclasses.py: stitching counters that restart at every
    kernel into one axis, and differencing such counters.  Samples are reals. */
module KernelAxis {
  import opened Results
  import opened Arithmetic

  datatype PlotError = IndexError | ZeroDivisionError

  /* Kernel starts */

  /** Sample `i` opens a kernel when the axis failed to grow; the scan starts from -1. */
  predicate IsStart(axis: seq<real>, i: nat)
    requires i < |axis|
  {
    (if i == 0 then -1.0 else axis[i - 1]) >= axis[i]
  }

  /** `locs` lists the kernel starts of `axis` in order, closed by the length of the axis. */
  ghost predicate AreLocs(axis: seq<real>, locs: seq<nat>) {
    && |locs| > 0
    && locs[|locs| - 1] == |axis|
    && (forall a, b :: 0 <= a < b < |locs| ==> locs[a] < locs[b])
    && (forall a :: 0 <= a < |locs| ==> locs[a] <= |axis|)
    && (forall i :: 0 <= i < |axis| ==> (i in locs <==> IsStart(axis, i)))
  }

  /** What the kernels before sample `i` have accumulated: the last value of each of them. */
  function Carry(axis: seq<real>, v: seq<real>, i: nat): real
    requires i < |axis| && i <= |v|
  {
    if i == 0 then 0.0
    else Carry(axis, v, i - 1) + (if IsStart(axis, i) then v[i - 1] else 0.0)
  }

  /** The series with every kernel lifted by its carry; samples past the axis keep their value. */
  function Stitched(axis: seq<real>, v: seq<real>): (u: seq<real>)
    ensures |u| == |v|
  {
    seq(|v|, i requires 0 <= i < |v| => if i < |axis| then v[i] + Carry(axis, v, i) else v[i])
  }

  /** Some kernel starts after sample 0. */
  ghost predicate HasRestart(axis: seq<real>) {
    exists k :: 0 < k < |axis| && IsStart(axis, k)
  }

  lemma {:induction false} CarryConstant(axis: seq<real>, v: seq<real>, lo: nat, i: nat)
    requires lo <= i < |axis| && i <= |v|
    requires forall k :: lo < k <= i ==> !IsStart(axis, k)
    ensures Carry(axis, v, i) == Carry(axis, v, lo)
  {
    if lo < i {
      CarryConstant(axis, v, lo, i - 1);
    }
  }

  function IndexOf(s: seq<nat>, x: nat): (i: nat)
    requires x in s
    ensures i < |s| && s[i] == x && x !in s[..i]
  {
    if s[0] == x then 0 else 1 + IndexOf(s[1..], x)
  }

  /* Differences */

  /** The value `takeDerivative` subtracts at sample `i`: nothing at the start or after a drop. */
  function Previous(y: seq<real>, reset: bool, i: nat): real
    requires i < |y|
  {
    if i == 0 || (reset && y[i] < y[i - 1]) then 0.0 else y[i - 1]
  }

  function Difference(y: seq<real>, reset: bool, i: nat): real
    requires i < |y|
  {
    y[i] - Previous(y, reset, i)
  }

  /** The first non-zero axis sample: a negative step is replaced by it (by zero if there is none). */
  function FirstNonZero(axis: seq<real>): real
    requires |axis| > 0
  {
    if axis[0] != 0.0 || |axis| == 1 then axis[0] else FirstNonZero(axis[1..])
  }

  function CycleStep(x: seq<real>, axis: seq<real>): real
    requires |x| >= 2
  {
    if x[1] - x[0] < 0.0 && |axis| > 0 then FirstNonZero(axis) else x[1] - x[0]
  }

  /** The quotients `takeDerivative` returns. */
  function Derivative(y: seq<real>, reset: bool, step: real): (d: seq<real>)
    requires step != 0.0
    ensures |d| == |y|
  {
    seq(|y|, i requires 0 <= i < |y| => Difference(y, reset, i) / step)
  }

  /** `step` is the first non-zero sample, or zero if there is none. */
  ghost predicate IsFirstNonZero(axis: seq<real>, step: real) {
    if step == 0.0 then ZeroUpTo(axis, |axis|)
    else exists k :: 0 <= k < |axis| && axis[k] == step && ZeroUpTo(axis, k)
  }

  ghost predicate ZeroUpTo(axis: seq<real>, k: nat)
    requires k <= |axis|
  {
    forall i :: 0 <= i < k ==> axis[i] == 0.0
  }

  /** The step between the first two x samples; if it is negative, the axis, unless empty, gives another. */
  ghost predicate IsCycleStep(x: seq<real>, axis: seq<real>, step: real) {
    |x| >= 2 && if x[1] >= x[0] || axis == [] then step == x[1] - x[0] else IsFirstNonZero(axis, step)
  }

  lemma {:induction false} FirstNonZeroIs(axis: seq<real>)
    requires |axis| > 0
    ensures IsFirstNonZero(axis, FirstNonZero(axis))
  {
    var step := FirstNonZero(axis);
    if axis[0] != 0.0 {
      assert ZeroUpTo(axis, 0);
    } else if |axis| > 1 {
      FirstNonZeroIs(axis[1..]);
      if step != 0.0 {
        var k :| 0 <= k < |axis| - 1 && axis[1..][k] == step && ZeroUpTo(axis[1..], k);
        forall i | 0 <= i < k + 1 ensures axis[i] == 0.0 {
          assert i > 0 ==> axis[i] == axis[1..][i - 1];
        }
        assert axis[k + 1] == step && ZeroUpTo(axis, k + 1);
      } else {
        forall i | 0 <= i < |axis| ensures axis[i] == 0.0 {
          assert i > 0 ==> axis[i] == axis[1..][i - 1];
        }
      }
    }
  }

  /** The step is what the samples say, and nothing else is. */
  lemma {:induction false} CycleStepExactly(x: seq<real>, axis: seq<real>, step: real)
    requires |x| >= 2
    ensures IsCycleStep(x, axis, step) <==> step == CycleStep(x, axis)
  {
    if |axis| > 0 {
      FirstNonZeroIs(axis);
      if IsFirstNonZero(axis, step) {
        FirstNonZeroUnique(axis, step, FirstNonZero(axis));
      }
    }
  }

  lemma {:induction false} FirstNonZeroUnique(axis: seq<real>, a: real, b: real)
    requires IsFirstNonZero(axis, a) && IsFirstNonZero(axis, b)
    ensures a == b
  {
    if a != 0.0 && b != 0.0 {
      var i :| 0 <= i < |axis| && axis[i] == a && ZeroUpTo(axis, i);
      var j :| 0 <= j < |axis| && axis[j] == b && ZeroUpTo(axis, j);
      assert i == j;
    }
  }

  /* Ticks */

  /** At least one tick, at most one per sample. */
  function ClippedTicks(requested: int, length: nat): int {
    var s := if requested < 1 then 1 else requested;
    if s > length then length else s
  }

  /** The multiples of `step` below `length`. */
  ghost predicate AreTicks(positions: seq<nat>, length: nat, step: nat) {
    && (forall i :: 0 <= i < |positions| ==> positions[i] == i * step < length)
    && length <= |positions| * step
  }

  lemma StepPositive(length: nat, s: nat)
    requires 1 <= s <= length
    ensures length / s >= 1
  {
  }

  /** Python's range(0, length, step). */
  method RangeOf(length: nat, step: nat) returns (positions: seq<nat>)
    requires step >= 1
    ensures AreTicks(positions, length, step)
  {
    positions := [];
    var count := 0;
    while count < length
      invariant count == |positions| * step
      invariant forall i :: 0 <= i < |positions| ==> positions[i] == i * step < length
    {
      positions := positions + [count];
      count := count + step;
    }
  }

  datatype TickSetting = Unset | Ticks(count: int)

  class GraphManager {
    var axisData: seq<real>          // simplerName[dataChosenX].data
    var kernalLocs: seq<nat>
    var disconnect: int
    var currPlot: nat
    var xAxisStepsWilStack: seq<int>
    var yAxisStepsWilStack: seq<TickSetting>

    /** The locations belong to the axis being drawn, as `FindKernalLocs` leaves them. */
    ghost predicate Valid()
      reads this
    {
      AreLocs(axisData, kernalLocs)
    }

    method FindKernalLocs()
      modifies this`kernalLocs
      ensures Valid()
      ensures 0 in kernalLocs <==> axisData == [] || axisData[0] <= -1.0
      ensures forall i :: 0 < i < |axisData| ==> (i in kernalLocs <==> axisData[i] <= axisData[i - 1])
    {
      kernalLocs := [];
      var prevCycle := -1.0;
      var countIter := 0;
      while countIter < |axisData|
        invariant countIter <= |axisData|
        invariant prevCycle == if countIter == 0 then -1.0 else axisData[countIter - 1]
        invariant forall a, b :: 0 <= a < b < |kernalLocs| ==> kernalLocs[a] < kernalLocs[b]
        invariant forall a :: 0 <= a < |kernalLocs| ==> kernalLocs[a] < countIter
        invariant forall i :: 0 <= i < countIter ==> (i in kernalLocs <==> IsStart(axisData, i))
      {
        ghost var before := kernalLocs;
        var cycle := axisData[countIter];
        if prevCycle >= cycle {
          kernalLocs := kernalLocs + [countIter];
        }
        assert forall i :: i != countIter ==> (i in kernalLocs <==> i in before);
        prevCycle := cycle;
        countIter := countIter + 1;
      }
      ghost var before := kernalLocs;
      kernalLocs := kernalLocs + [|axisData|];
      assert forall i :: i != |axisData| ==> (i in kernalLocs <==> i in before);
    }

    method XIsKernal(x: nat, kernalStarts: seq<nat>) returns (found: bool)
      ensures found <==> x in kernalStarts
    {
      found := false;
      for k := 0 to |kernalStarts|
        invariant found <==> x in kernalStarts[..k]
      {
        if kernalStarts[k] == x {
          found := true;
        }
      }
      assert kernalStarts[..|kernalStarts|] == kernalStarts;
    }

    /** The inner loop of `UpdateVarKernal`: lifts samples `cycleNum..end` by the one before them,
        from the last down to the first. */
    method LiftKernel(v: seq<real>, cycleNum: nat, end: nat) returns (r: Result<seq<real>, PlotError>)
      requires cycleNum < end
      ensures r.Failure? <==> cycleNum != 0 && end > |v|
      ensures r.Success? ==> |r.value| == |v| && forall i :: 0 <= i < |v| ==>
        r.value[i] == if cycleNum != 0 && cycleNum <= i < end then v[i] + v[cycleNum - 1] else v[i]
    {
      var out := v;
      var cycleSum := end - 1;
      while cycleSum >= cycleNum
        invariant cycleNum - 1 <= cycleSum < end
        invariant |out| == |v|
        invariant cycleNum != 0 && cycleSum < end - 1 ==> end <= |v|
        invariant forall i :: 0 <= i < |v| ==>
          out[i] == if cycleNum != 0 && cycleSum < i < end then v[i] + v[cycleNum - 1] else v[i]
      {
        if cycleNum != 0 {
          if cycleSum >= |out| {
            return Failure(IndexError);
          }
          out := out[cycleSum := out[cycleSum] + out[cycleNum - 1]];
        }
        cycleSum := cycleSum - 1;
      }
      return Success(out);
    }

    /** Adds the last value of the previous kernel to every sample of this one, kernel by kernel. */
    method UpdateVarKernal(v: seq<real>) returns (r: Result<seq<real>, PlotError>)
      requires Valid()
      ensures r.Failure? <==> disconnect == 0 && |v| < |axisData| && HasRestart(axisData)
      ensures r.Success? ==> r.value == if disconnect == 0 then Stitched(axisData, v) else v
    {
      if disconnect != 0 {
        return Success(v);
      }
      var out := v;
      ghost var j := 0;     // kernel starts already handled
      BeforeFirstKernel(axisData, kernalLocs, v);
      for cycleNum := 0 to |axisData|
        invariant Progress(axisData, kernalLocs, v, cycleNum, j, out)
      {
        var isKernal := XIsKernal(cycleNum, kernalLocs);
        if isKernal {
          AtStart(axisData, kernalLocs, v, cycleNum, j, out);
          var index := IndexOf(kernalLocs, cycleNum);
          var lifted := LiftKernel(out, cycleNum, kernalLocs[index + 1]);
          if lifted.Failure? {
            return Failure(lifted.error);
          }
          StitchOneKernel(axisData, kernalLocs, v, j, out, lifted.value);
          out := lifted.value;
          j := j + 1;
        } else {
          NoStart(axisData, kernalLocs, v, cycleNum, j, out);
        }
      }
      AllStitched(axisData, kernalLocs, v, j, out);
      return Success(out);
    }

    /** Differences `y` along `x`; with `bAcc` a falling counter is taken to have restarted at zero. */
    method TakeDerivative(x: seq<real>, y: seq<real>, bAcc: bool) returns (r: Result<seq<real>, PlotError>)
      ensures r == Failure(IndexError) <==> |x| < 2
      ensures r == Failure(ZeroDivisionError) <==> |x| >= 2 && CycleStep(x, axisData) == 0.0 && |y| > 0
      ensures r.Success? ==> Integrates(x, axisData, y, bAcc, r.value)
      ensures r.Success? && |y| > 0 ==> r.value == Derivative(y, bAcc, CycleStep(x, axisData))
      ensures r.Success? && |y| == 0 ==> r.value == []
    {
      if |x| < 2 {
        return Failure(IndexError);
      }
      var cycleStep := x[1] - x[0];
      if cycleStep < 0.0 {
        var k := 0;
        while k < |axisData|
          invariant k <= |axisData|
          invariant k == 0 ==> cycleStep == x[1] - x[0]
          invariant k > 0 ==> cycleStep == 0.0
          invariant k < |axisData| ==> FirstNonZero(axisData[k..]) == FirstNonZero(axisData)
          invariant k == |axisData| > 0 ==> FirstNonZero(axisData) == 0.0
        {
          cycleStep := axisData[k];
          if cycleStep != 0.0 {
            break;
          }
          k := k + 1;
        }
      }
      assert cycleStep == CycleStep(x, axisData);
      var derivative := [];
      var prevY := 0.0;
      for k := 0 to |y|
        invariant |derivative| == k
        invariant prevY == if k == 0 then 0.0 else y[k - 1]
        invariant k > 0 ==> cycleStep != 0.0
        invariant forall i :: 0 <= i < k ==> derivative[i] == Difference(y, bAcc, i) / cycleStep
      {
        var yNum := y[k];
        if bAcc && yNum < prevY {
          prevY := 0.0;
        }
        if cycleStep == 0.0 {
          return Failure(ZeroDivisionError);
        }
        derivative := derivative + [(yNum - prevY) / cycleStep];
        prevY := yNum;
      }
      CycleStepExactly(x, axisData, cycleStep);
      if |y| > 0 {
        assert derivative == Derivative(y, bAcc, cycleStep);
        DerivativeIntegrates(x, axisData, y, bAcc, cycleStep);
      }
      return Success(derivative);
    }

    /** `d` is the row of differences of `row`; a row without samples needs no cycle step. */
    ghost predicate RowIs(x: seq<real>, row: seq<real>, d: seq<real>)
      reads this
    {
      if |row| == 0 then d == []
      else |x| >= 2 && CycleStep(x, axisData) != 0.0 && d == Derivative(row, true, CycleStep(x, axisData))
    }

    /** Differences every row. */
    method TakeDerivativeMult(x: seq<real>, y: seq<seq<real>>) returns (r: Result<seq<seq<real>>, PlotError>)
      ensures r == Failure(IndexError) <==> |axisData| < 2 || (|y| > 0 && |x| < 2)
      ensures r == Failure(ZeroDivisionError) <==>
        && |axisData| >= 2 && |x| >= 2
        && CycleStep(x, axisData) == 0.0 && exists k :: 0 <= k < |y| && |y[k]| > 0
      ensures r.Success? ==> |r.value| == |y| && forall k :: 0 <= k < |y| ==>
        RowIs(x, y[k], r.value[k])
    {
      if |axisData| < 2 {
        return Failure(IndexError);
      }
      var rows := [];
      for num := 0 to |y|
        invariant |rows| == num
        invariant num > 0 ==> |x| >= 2
        invariant forall k :: 0 <= k < num ==> RowIs(x, y[k], rows[k])
      {
        var row := TakeDerivative(x, y[num], true);
        if row.Failure? {
          assert row.error == IndexError || row.error == ZeroDivisionError;
          return Failure(row.error);
        }
        rows := rows + [row.value];
      }
      return Success(rows);
    }

    /** Clips the x tick setting of the current plot in place and returns the labelled positions. */
    method XTicks(xLength: nat) returns (r: Result<seq<nat>, PlotError>)
      requires currPlot < |xAxisStepsWilStack|
      modifies this`xAxisStepsWilStack
      ensures xAxisStepsWilStack ==
        old(xAxisStepsWilStack)[currPlot := ClippedTicks(old(xAxisStepsWilStack)[currPlot], xLength)]
      ensures r.Failure? <==> xLength == 0
      ensures r.Failure? ==> r.error == ZeroDivisionError
      ensures r.Success? ==>
        var s := xAxisStepsWilStack[currPlot];
        if s == 1 then r.value == [] else s > 0 && AreTicks(r.value, xLength, xLength / s)
    {
      if xAxisStepsWilStack[currPlot] < 1 {
        xAxisStepsWilStack := xAxisStepsWilStack[currPlot := 1];
      }
      if xAxisStepsWilStack[currPlot] > xLength {
        xAxisStepsWilStack := xAxisStepsWilStack[currPlot := xLength];
      }
      if xAxisStepsWilStack[currPlot] != 1 {
        if xAxisStepsWilStack[currPlot] == 0 {
          return Failure(ZeroDivisionError);
        }
        StepPositive(xLength, xAxisStepsWilStack[currPlot]);
        var positions := RangeOf(xLength, xLength / xAxisStepsWilStack[currPlot]);
        return Success(positions);
      }
      return Success([]);
    }

    /** As `XTicks` for the y axis, where an unset entry first becomes 8 and one tick is labelled too. */
    method YTicks(yLength: nat) returns (r: Result<seq<nat>, PlotError>)
      requires currPlot < |yAxisStepsWilStack|
      modifies this`yAxisStepsWilStack
      ensures yAxisStepsWilStack == old(yAxisStepsWilStack)[currPlot :=
        Ticks(ClippedTicks(match old(yAxisStepsWilStack)[currPlot] case Unset => 8 case Ticks(n) => n, yLength))]
      ensures r.Failure? <==> yLength == 0
      ensures r.Failure? ==> r.error == ZeroDivisionError
      ensures r.Success? ==>
        var s := yAxisStepsWilStack[currPlot].count;
        s > 0 && AreTicks(r.value, yLength, yLength / s)
    {
      if yAxisStepsWilStack[currPlot] == Unset {
        yAxisStepsWilStack := yAxisStepsWilStack[currPlot := Ticks(8)];
      }
      if yAxisStepsWilStack[currPlot].count < 1 {
        yAxisStepsWilStack := yAxisStepsWilStack[currPlot := Ticks(1)];
      }
      if yAxisStepsWilStack[currPlot].count > yLength {
        yAxisStepsWilStack := yAxisStepsWilStack[currPlot := Ticks(yLength)];
      }
      if yAxisStepsWilStack[currPlot].count == 0 {
        return Failure(ZeroDivisionError);
      }
      StepPositive(yLength, yAxisStepsWilStack[currPlot].count);
      var positions := RangeOf(yLength, yLength / yAxisStepsWilStack[currPlot].count);
      return Success(positions);
    }
  }

  /** The samples before `bound` are stitched, the others untouched. */
  ghost predicate StitchedUpTo(axis: seq<real>, v: seq<real>, bound: nat, out: seq<real>)
    requires bound <= |axis|
  {
    && |out| == |v|
    && forall i :: 0 <= i < |v| ==> out[i] == if i < bound then v[i] + Carry(axis, v, i) else v[i]
  }

  /** Before cycle `c` the first `j` kernels have been handled, everything before kernel `j` ends being
      stitched; once there is a restart the handled kernels fit the series. */
  ghost predicate Progress(axis: seq<real>, locs: seq<nat>, v: seq<real>, c: nat, j: nat, out: seq<real>)
    requires AreLocs(axis, locs)
  {
    && j < |locs| && c <= locs[j]
    && (forall a :: 0 <= a < j ==> locs[a] < c)
    && StitchedUpTo(axis, v, locs[j], out)
    && (forall k :: 0 < k < c && IsStart(axis, k) ==> locs[j] <= |v|)
  }

  lemma NoStart(axis: seq<real>, locs: seq<nat>, v: seq<real>, c: nat, j: nat, out: seq<real>)
    requires AreLocs(axis, locs) && c < |axis| && c !in locs && Progress(axis, locs, v, c, j, out)
    ensures Progress(axis, locs, v, c + 1, j, out)
  {
  }

  lemma AtStart(axis: seq<real>, locs: seq<nat>, v: seq<real>, c: nat, j: nat, out: seq<real>)
    requires AreLocs(axis, locs) && c < |axis| && c in locs && Progress(axis, locs, v, c, j, out)
    ensures locs[j] == c && IndexOf(locs, c) == j && j + 1 < |locs|
    ensures c < locs[j + 1]
  {
    var a := IndexOf(locs, c);
    assert a >= j;
    assert a == j;
  }

  lemma AllStitched(axis: seq<real>, locs: seq<nat>, v: seq<real>, j: nat, out: seq<real>)
    requires AreLocs(axis, locs) && Progress(axis, locs, v, |axis|, j, out)
    ensures out == Stitched(axis, v)
    ensures |v| < |axis| ==> !HasRestart(axis)
  {
  }

  lemma StitchOneKernel(axis: seq<real>, locs: seq<nat>, v: seq<real>, j: nat, out: seq<real>, lifted: seq<real>)
    requires AreLocs(axis, locs) && j + 1 < |locs|
    requires Progress(axis, locs, v, locs[j], j, out)
    requires locs[j] != 0 ==> locs[j + 1] <= |v|
    requires |lifted| == |v| && forall i :: 0 <= i < |v| ==>
      lifted[i] == if locs[j] != 0 && locs[j] <= i < locs[j + 1] then out[i] + out[locs[j] - 1] else out[i]
    ensures Progress(axis, locs, v, locs[j] + 1, j + 1, lifted)
  {
    forall i | locs[j] <= i < locs[j + 1] && i < |v|
      ensures lifted[i] == v[i] + Carry(axis, v, i)
    {
      KernelCarry(axis, locs, v, j, i);
    }
  }

  /** Inside kernel `j` the carry is what was carried to its start. */
  lemma KernelCarry(axis: seq<real>, locs: seq<nat>, v: seq<real>, j: nat, i: nat)
    requires AreLocs(axis, locs) && j + 1 < |locs|
    requires locs[j] <= i < locs[j + 1] && i < |v|
    ensures i < |axis|
    ensures Carry(axis, v, i) ==
      if locs[j] == 0 then 0.0 else Carry(axis, v, locs[j] - 1) + v[locs[j] - 1]
  {
    assert locs[j + 1] <= locs[|locs| - 1];
    forall k | locs[j] < k <= i ensures !IsStart(axis, k) {
      assert forall a :: 0 <= a < |locs| && locs[j] < locs[a] ==> locs[j + 1] <= locs[a];
    }
    CarryConstant(axis, v, locs[j], i);
    assert locs[j] in locs;
  }

  lemma BeforeFirstKernel(axis: seq<real>, locs: seq<nat>, v: seq<real>)
    requires AreLocs(axis, locs)
    ensures forall i :: 0 <= i < locs[0] && i < |v| ==> Carry(axis, v, i) == 0.0
  {
    forall i | 0 <= i < locs[0] && i < |v| ensures Carry(axis, v, i) == 0.0 {
      assert forall a :: 0 <= a < |locs| ==> locs[0] <= locs[a];
      assert locs[0] <= locs[|locs| - 1];
      CarryConstant(axis, v, 0, i);
    }
  }

  /** What is carried to sample `i` is the sum of the samples just before the kernel starts up to it. */
  lemma {:induction false} CarryIsLastValues(axis: seq<real>, v: seq<real>, i: nat)
    returns (starts: seq<nat>, lasts: seq<real>)
    requires i < |axis| && i <= |v|
    ensures forall a, b :: 0 <= a < b < |starts| ==> starts[a] < starts[b]
    ensures forall k: nat :: k in starts <==> 0 < k <= i && axis[k] <= axis[k - 1]
    ensures |lasts| == |starts| && forall n :: 0 <= n < |starts| ==> 0 < starts[n] <= i && lasts[n] == v[starts[n] - 1]
    ensures Carry(axis, v, i) == PartialSum(lasts, |lasts|)
  {
    starts, lasts := [], [];
    if i > 0 {
      starts, lasts := CarryIsLastValues(axis, v, i - 1);
      if IsStart(axis, i) {
        PartialSumSnoc(lasts, v[i - 1]);
        starts, lasts := starts + [i], lasts + [v[i - 1]];
      }
    }
  }

  lemma {:induction false} PartialSumSnoc(d: seq<real>, x: real)
    ensures PartialSum(d + [x], |d| + 1) == PartialSum(d, |d|) + x
  {
    SumOfPrefix(d, x, |d|);
  }

  lemma {:induction false} SumOfPrefix(d: seq<real>, x: real, n: nat)
    requires n <= |d|
    ensures PartialSum(d + [x], n) == PartialSum(d, n)
  {
    if n > 0 {
      SumOfPrefix(d, x, n - 1);
    }
  }

  /* The stitched axis */

  /** A non-negative axis, stitched by itself, never falls, grows inside every kernel exactly as the
      raw axis does, and keeps a restart only where a kernel begins at cycle zero. */
  lemma {:induction false} StitchedAxisMonotone(axis: seq<real>)
    requires forall i :: 0 <= i < |axis| ==> axis[i] >= 0.0
    ensures forall i, j :: 0 <= i <= j < |axis| ==> Stitched(axis, axis)[i] <= Stitched(axis, axis)[j]
    ensures forall i, j :: 0 <= i < j < |axis| && SameKernel(axis, i, j) ==>
      && Stitched(axis, axis)[i] < Stitched(axis, axis)[j]
      && Stitched(axis, axis)[j] - Stitched(axis, axis)[i] == axis[j] - axis[i]
    ensures forall k :: 0 < k < |axis| ==>
      (IsStart(Stitched(axis, axis), k) <==> IsStart(axis, k) && axis[k] == 0.0)
  {
    forall i, j | 0 <= i <= j < |axis|
      ensures Stitched(axis, axis)[i] <= Stitched(axis, axis)[j]
    {
      StitchedNeverFalls(axis, i, j);
    }
    forall i, j | 0 <= i < j < |axis| && SameKernel(axis, i, j)
      ensures Stitched(axis, axis)[i] < Stitched(axis, axis)[j]
      ensures Stitched(axis, axis)[j] - Stitched(axis, axis)[i] == axis[j] - axis[i]
    {
      CarryConstant(axis, axis, i, j);
      GrowsInKernel(axis, i, j);
    }
  }

  ghost predicate SameKernel(axis: seq<real>, i: nat, j: nat)
    requires i <= j < |axis|
  {
    forall k :: i < k <= j ==> !IsStart(axis, k)
  }

  lemma {:induction false} StitchedNeverFalls(axis: seq<real>, i: nat, j: nat)
    requires i <= j < |axis|
    requires forall k :: 0 <= k < |axis| ==> axis[k] >= 0.0
    ensures Stitched(axis, axis)[i] <= Stitched(axis, axis)[j]
  {
    if i < j {
      StitchedNeverFalls(axis, i, j - 1);
    }
  }

  lemma {:induction false} GrowsInKernel(axis: seq<real>, i: nat, j: nat)
    requires i < j < |axis| && SameKernel(axis, i, j)
    ensures axis[i] < axis[j]
  {
    assert !IsStart(axis, j);
    if i < j - 1 {
      GrowsInKernel(axis, i, j - 1);
    }
  }

  /* Differencing */

  function PartialSum(d: seq<real>, n: nat): real
    requires n <= |d|
  {
    if n == 0 then 0.0 else PartialSum(d, n - 1) + d[n - 1]
  }

  /** The values just before each drop of `y` up to `i`. */
  function Dropped(y: seq<real>, i: nat): real
    requires i < |y|
  {
    if i == 0 then 0.0
    else Dropped(y, i - 1) + (if y[i] < y[i - 1] then y[i - 1] else 0.0)
  }

  function Differences(y: seq<real>): (e: seq<real>)
    ensures |e| == |y|
  {
    seq(|y|, k requires 0 <= k < |y| => Difference(y, true, k))
  }

  /** With the step that the samples give, the running sum of `d` times the step is the series, with the
      value before every drop put back if drops are taken for restarts. */
  ghost predicate Integrates(x: seq<real>, axis: seq<real>, y: seq<real>, reset: bool, d: seq<real>) {
    |d| == |y| && forall step :: IsCycleStep(x, axis, step) ==> SumsBack(y, reset, step, d)
  }

  ghost predicate SumsBack(y: seq<real>, reset: bool, step: real, d: seq<real>)
    requires |d| == |y|
  {
    forall i :: 0 <= i < |y| ==> step * PartialSum(d, i + 1) == y[i] + (if reset then Dropped(y, i) else 0.0)
  }

  /** `d[k]` times the step is the difference at `k`. */
  ghost predicate Quotients(y: seq<real>, reset: bool, step: real, d: seq<real>)
    requires |d| == |y|
  {
    forall k :: 0 <= k < |y| ==> step * d[k] == Difference(y, reset, k)
  }

  lemma DerivativeIsQuotients(y: seq<real>, reset: bool, step: real)
    requires step != 0.0
    ensures Quotients(y, reset, step, Derivative(y, reset, step))
  {
    forall k | 0 <= k < |y| ensures step * Derivative(y, reset, step)[k] == Difference(y, reset, k) {
      QuotientTimesStep(Difference(y, reset, k), step);
    }
  }

  lemma {:induction false} QuotientsSumBack(y: seq<real>, reset: bool, step: real, d: seq<real>, i: nat)
    requires i < |y| == |d| && Quotients(y, reset, step, d)
    ensures step * PartialSum(d, i + 1) == y[i] + (if reset then Dropped(y, i) else 0.0)
  {
    Distribute(step, PartialSum(d, i), d[i]);
    if i > 0 {
      QuotientsSumBack(y, reset, step, d, i - 1);
    }
  }

  lemma Distribute(a: real, b: real, c: real)
    ensures a * (b + c) == a * b + a * c && a * 0.0 == 0.0
  {
  }

  lemma {:induction false} AllSumBack(y: seq<real>, reset: bool, step: real, d: seq<real>)
    requires |d| == |y| && Quotients(y, reset, step, d)
    ensures SumsBack(y, reset, step, d)
  {
    forall i | 0 <= i < |y|
      ensures step * PartialSum(d, i + 1) == y[i] + (if reset then Dropped(y, i) else 0.0)
    {
      QuotientsSumBack(y, reset, step, d, i);
    }
  }

  /** Summing what differencing returns, times the step, gives the series back. */
  lemma {:induction false} DerivativeSumsBack(y: seq<real>, reset: bool, step: real)
    requires step != 0.0
    ensures SumsBack(y, reset, step, Derivative(y, reset, step))
  {
    DerivativeIsQuotients(y, reset, step);
    AllSumBack(y, reset, step, Derivative(y, reset, step));
  }

  lemma {:induction false} DerivativeIntegrates(x: seq<real>, axis: seq<real>, y: seq<real>, reset: bool, step: real)
    requires step != 0.0 && |x| >= 2 && step == CycleStep(x, axis)
    ensures Integrates(x, axis, y, reset, Derivative(y, reset, step))
  {
    DerivativeSumsBack(y, reset, step);
    forall other | IsCycleStep(x, axis, other) ensures SumsBack(y, reset, other, Derivative(y, reset, step)) {
      CycleStepExactly(x, axis, other);
    }
  }

  /** No quotient of a non-negative series is negative. */
  lemma {:induction false} DerivativeNonNegative(y: seq<real>, step: real, i: nat)
    requires step > 0.0 && i < |y|
    requires forall k :: 0 <= k < |y| ==> y[k] >= 0.0
    ensures Derivative(y, true, step)[i] >= 0.0
  {
    QuotientNonNegative(Difference(y, true, i), step);
  }

  /** The differences `takeDerivative` divides by the step sum to the series with the value before
      every drop put back. */
  lemma {:induction false} DifferencesSumBack(y: seq<real>, i: nat)
    requires i < |y|
    ensures PartialSum(Differences(y), i + 1) == y[i] + Dropped(y, i)
  {
    assert Differences(y)[i] == Difference(y, true, i);
    if i > 0 {
      DifferencesSumBack(y, i - 1);
    } else {
      assert PartialSum(Differences(y), 0) == 0.0;
    }
  }

  /** When the counter drops exactly where the kernels start, the running sum of its differences is the
      stitched counter: summing undoes differencing, across restarts. */
  lemma {:induction false} SummedDifferencesAreStitched(axis: seq<real>, y: seq<real>, i: nat)
    requires i < |axis| == |y|
    requires forall k :: 0 < k < |y| ==> (IsStart(axis, k) <==> y[k] < y[k - 1])
    ensures PartialSum(Differences(y), i + 1) == Stitched(axis, y)[i]
  {
    DifferencesSumBack(y, i);
    DroppedIsCarry(axis, y, i);
  }

  lemma {:induction false} DroppedIsCarry(axis: seq<real>, y: seq<real>, i: nat)
    requires i < |axis| == |y|
    requires forall k :: 0 < k < |y| ==> (IsStart(axis, k) <==> y[k] < y[k - 1])
    ensures Dropped(y, i) == Carry(axis, y, i)
  {
    if i > 0 {
      DroppedIsCarry(axis, y, i - 1);
    }
  }

  lemma QuotientNonNegative(a: real, step: real)
    requires a >= 0.0 && step > 0.0
    ensures a / step >= 0.0
  {
  }

  lemma QuotientTimesStep(a: real, step: real)
    requires step != 0.0
    ensures step * (a / step) == a
  {
  }

  /** Reset-aware differencing undoes a running sum exactly when no later increment is negative, save
      where the sum so far is zero. */
  lemma {:induction false} DifferenceUndoesRunningSum(d: seq<real>)
    ensures var sums := seq(|d|, i requires 0 <= i < |d| => PartialSum(d, i + 1));
      (forall i :: 0 <= i < |d| ==> Difference(sums, true, i) == d[i])
      <==> (forall i :: 0 < i < |d| ==> d[i] >= 0.0 || PartialSum(d, i) == 0.0)
  {
    var sums := seq(|d|, i requires 0 <= i < |d| => PartialSum(d, i + 1));
    forall i | 0 <= i < |d|
      ensures Difference(sums, true, i) == d[i] <==> (i == 0 || d[i] >= 0.0 || PartialSum(d, i) == 0.0)
    {
      assert sums[i] == PartialSum(d, i) + d[i];
      if i > 0 {
        assert sums[i - 1] == PartialSum(d, i);
      }
    }
  }

  /** At sample `i` the drops of `y` and the kernel starts of `axis` agree well enough for differencing:
      a start is a drop (or follows a zero), and any other drop finds nothing carried. */
  ghost predicate DropsAtStarts(axis: seq<real>, y: seq<real>, i: nat)
    requires 0 < i < |axis| == |y|
  {
    if IsStart(axis, i) then y[i] < y[i - 1] || y[i - 1] == 0.0
    else y[i] >= y[i - 1] || Carry(axis, y, i) == 0.0
  }

  /** Differencing the raw counter and differencing the stitched one give the same series exactly when
      the counter drops where the kernels start. */
  lemma {:induction false} DerivativeIgnoresStitching(axis: seq<real>, y: seq<real>, step: real)
    requires |axis| == |y| && step > 0.0
    requires forall k :: 0 <= k < |y| ==> y[k] >= 0.0
    ensures Derivative(Stitched(axis, y), true, step) == Derivative(y, true, step)
      <==> (forall i :: 0 < i < |y| ==> DropsAtStarts(axis, y, i))
  {
    var u := Stitched(axis, y);
    forall i | 0 <= i < |y|
      ensures Derivative(u, true, step)[i] == Derivative(y, true, step)[i]
        <==> (i == 0 || DropsAtStarts(axis, y, i))
    {
      SameQuotient(Difference(u, true, i), Difference(y, true, i), step);
      CarryNonNegative(axis, y, i);
    }
  }

  lemma SameQuotient(a: real, b: real, step: real)
    requires step != 0.0
    ensures a / step == b / step <==> a == b
  {
    QuotientTimesStep(a, step);
    QuotientTimesStep(b, step);
  }

  lemma {:induction false} CarryNonNegative(axis: seq<real>, v: seq<real>, i: nat)
    requires i < |axis| && i <= |v|
    requires forall k :: 0 <= k < |v| ==> v[k] >= 0.0
    ensures Carry(axis, v, i) >= 0.0
  {
    if i > 0 {
      CarryNonNegative(axis, v, i - 1);
    }
  }

  /** A plateau is a kernel start to `findKernalLocs` but no drop to `takeDerivative`, so there the two
      disagree: cycle 5, logged twice, adds 5 to the stitched axis and nothing to the raw difference. */
  lemma {:induction false} PlateauDisagrees()
    ensures var axis := [0.0, 5.0, 5.0];
      && Stitched(axis, axis) == [0.0, 5.0, 10.0]
      && Derivative(Stitched(axis, axis), true, 1.0)[2] == 5.0
      && Derivative(axis, true, 1.0)[2] == 0.0
  {
    var axis := [0.0, 5.0, 5.0];
    assert Carry(axis, axis, 0) == 0.0;
    assert Carry(axis, axis, 1) == 0.0;
    assert Carry(axis, axis, 2) == 5.0;
  }

  /* Tick counts */

  /** Clipping gives the number of ticks from 1 to `length` that is nearest to the one asked for, and none
      only where there are no samples. */
  lemma {:induction false} ClippedIsNearest(requested: int, length: nat, t: int)
    requires 1 <= t <= length
    ensures var s := ClippedTicks(requested, length);
      1 <= s <= length && (requested <= s <= t || t <= s <= requested || s == requested)
    ensures ClippedTicks(requested, 0) == 0
  {
  }

  /** Clipping gives between one and `length` ticks, the step is positive, and stepping through the
      axis labels at least as many positions as asked for and fewer than twice as many. */
  lemma {:induction false} TickCount(length: nat, requested: int, positions: seq<nat>)
    requires length >= 1
    requires var s := ClippedTicks(requested, length);
      s > 0 && AreTicks(positions, length, length / s)
    ensures var s := ClippedTicks(requested, length);
      1 <= s <= length && length / s >= 1 && s <= |positions| <= 2 * s - 1
  {
    var s := ClippedTicks(requested, length);
    StepPositive(length, s);
    var last := positions[|positions| - 1];
    TickBounds(length, s, length / s, |positions|);
  }

  /** Labelled positions are distinct samples in order. */
  lemma {:induction false} TickOrder(length: nat, step: nat, positions: seq<nat>, i: nat, j: nat)
    requires step >= 1 && AreTicks(positions, length, step) && i < j < |positions|
    ensures positions[i] < positions[j] < length
  {
    StrictMultiples(i, j, step);
  }

  lemma StrictMultiples(i: nat, j: nat, step: nat)
    requires i < j && step >= 1
    ensures i * step < j * step
  {
    MulMonotone(i + 1, j, step);
    assert (i + 1) * step == i * step + step;
  }

  lemma TickBounds(length: nat, s: nat, step: nat, n: nat)
    requires 1 <= s && 1 <= step && s * step <= length < s * step + s
    requires 1 <= n && (n - 1) * step < length <= n * step
    ensures s <= n <= 2 * s - 1
  {
    assert (s - 1) * step == s * step - step;
    assert (2 * s - 1) * step == s * step + (s - 1) * step;
    MulMonotone(1, step, s - 1);
    if n < s {
      MulMonotone(n, s - 1, step);
    }
    if n > 2 * s - 1 {
      MulMonotone(2 * s - 1, n - 1, step);
    }
  }
}
