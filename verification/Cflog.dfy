/** The control-flow logs of aerialvision/organizedata.py: per-kernel PC histograms, their projection
    from PTX to CUDA lines, and the running totals over all kernels. */
module Cflog {
  import opened Results
  import opened Sums

  type Matrix = seq<seq<nat>>

  datatype CflogError = IndexError | OverflowError | ValueError

  ghost predicate Rect(m: Matrix, rows: nat, cols: nat) {
    |m| == rows && forall i :: 0 <= i < rows ==> |m[i]| == cols
  }

  /* [PC][cycle] histograms */

  /** One kernel's log: per cycle the program counters seen and their thread counts. */
  datatype RawLog = RawLog(pcs: seq<seq<nat>>, counts: seq<seq<nat>>, maxPC: nat)

  /** The count logged last for `pc` in a cycle, 0 if it was not seen. */
  function LastCount(pcList: seq<nat>, threads: seq<nat>, pc: nat): nat
    requires |pcList| <= |threads|
  {
    if pcList == [] then 0
    else if pcList[|pcList| - 1] == pc then threads[|pcList| - 1]
    else LastCount(pcList[..|pcList| - 1], threads, pc)
  }

  /** Entry `n` of a cycle is the last one of program counter `pc`. */
  ghost predicate LastSeen(pcList: seq<nat>, pc: nat, n: nat) {
    n < |pcList| && pcList[n] == pc && forall k :: n < k < |pcList| ==> pcList[k] != pc
  }

  /** `count` is what the cycle logs for `pc`: the thread count beside its last entry, 0 if it has none. */
  ghost predicate IsCount(pcList: seq<nat>, threads: seq<nat>, pc: nat, count: nat)
    requires |pcList| <= |threads|
  {
    && (forall n: nat :: LastSeen(pcList, pc, n) ==> count == threads[n])
    && (pc !in pcList ==> count == 0)
  }

  lemma {:induction false} LastCountIs(pcList: seq<nat>, threads: seq<nat>, pc: nat)
    requires |pcList| <= |threads|
    ensures IsCount(pcList, threads, pc, LastCount(pcList, threads, pc))
  {
    if pcList != [] {
      var front, last := pcList[..|pcList| - 1], pcList[|pcList| - 1];
      LastCountIs(front, threads, pc);
      assert pcList == front + [last];
      forall n: nat | LastSeen(pcList, pc, n) && last != pc ensures LastSeen(front, pc, n) {
      }
    }
  }

  ghost predicate CycleOk(log: RawLog, t: nat)
    requires t < |log.pcs|
  {
    && t < |log.counts|
    && |log.pcs[t]| <= |log.counts[t]|
    && forall n :: 0 <= n < |log.pcs[t]| ==> log.pcs[t][n] <= log.maxPC && log.counts[t][n] < TWO_TO_32
  }

  ghost predicate LogOk(log: RawLog) {
    forall t :: 0 <= t < |log.pcs| ==> CycleOk(log, t)
  }

  ghost predicate IsHistogram(log: RawLog, m: Matrix)
    requires LogOk(log)
  {
    && Rect(m, log.maxPC + 1, |log.pcs|)
    && forall t, pc :: 0 <= t < |log.pcs| && 0 <= pc <= log.maxPC ==>
         HistogramCell(log, t, pc, m)
  }

  ghost predicate HistogramCell(log: RawLog, t: nat, pc: nat, m: Matrix)
    requires t < |log.pcs| && CycleOk(log, t)
  {
    pc < |m| && t < |m[pc]| && IsCount(log.pcs[t], log.counts[t], pc, m[pc][t])
  }

  /** Writes one cycle's counts into its column, in place. */
  method FillCycle(before: Matrix, cycle: nat, pcList: seq<nat>, threadCountList: seq<nat>)
    returns (r: Result<Matrix, CflogError>)
    requires forall pc :: 0 <= pc < |before| ==> cycle < |before[pc]| && before[pc][cycle] == 0
    ensures r.Success? <==>
      (|pcList| <= |threadCountList|
       && forall n :: 0 <= n < |pcList| ==> pcList[n] < |before| && threadCountList[n] < TWO_TO_32)
    ensures r.Success? ==> |r.value| == |before| && forall pc :: 0 <= pc < |before| ==>
      r.value[pc] == before[pc][cycle := LastCount(pcList, threadCountList, pc)]
    ensures r.Success? ==> forall pc :: 0 <= pc < |before| ==>
      IsCount(pcList, threadCountList, pc, r.value[pc][cycle])
  {
    var final := before;
    for n := 0 to |pcList|
      invariant n <= |threadCountList|
      invariant forall k :: 0 <= k < n ==> pcList[k] < |before| && threadCountList[k] < TWO_TO_32
      invariant |final| == |before| && forall pc :: 0 <= pc < |before| ==>
        final[pc] == before[pc][cycle := LastCount(pcList[..n], threadCountList, pc)]
    {
      if n >= |threadCountList| || pcList[n] >= |final| {
        return Failure(IndexError);
      }
      if threadCountList[n] >= TWO_TO_32 {
        return Failure(OverflowError);
      }
      assert pcList[..n + 1][..n] == pcList[..n];
      final := final[pcList[n] := final[pcList[n]][cycle := threadCountList[n]]];
    }
    assert pcList[..|pcList|] == pcList;
    forall pc | 0 <= pc < |before| ensures IsCount(pcList, threadCountList, pc, final[pc][cycle]) {
      LastCountIs(pcList, threadCountList, pc);
    }
    return Success(final);
  }

  method CFLOGOrganizePTX(log: RawLog) returns (r: Result<Matrix, CflogError>)
    ensures r.Success? <==> LogOk(log)
    ensures r.Success? ==> IsHistogram(log, r.value)
  {
    var nCycles := |log.pcs|;
    var final: Matrix := seq(log.maxPC + 1, pc => seq(nCycles, cycle => 0));
    for cycle := 0 to nCycles
      invariant Rect(final, log.maxPC + 1, nCycles)
      invariant forall t :: 0 <= t < cycle ==> CycleOk(log, t)
      invariant forall t, pc :: 0 <= t < cycle && 0 <= pc <= log.maxPC ==> HistogramCell(log, t, pc, final)
      invariant forall t, pc :: cycle <= t < nCycles && 0 <= pc <= log.maxPC ==> final[pc][t] == 0
    {
      if cycle >= |log.counts| {
        assert !CycleOk(log, cycle);
        return Failure(IndexError);
      }
      var filled := FillCycle(final, cycle, log.pcs[cycle], log.counts[cycle]);
      assert filled.Success? <==> CycleOk(log, cycle);
      if filled.Failure? {
        return filled;
      }
      forall t, pc | 0 <= t <= cycle && 0 <= pc <= log.maxPC ensures HistogramCell(log, t, pc, filled.value) {
        assert t < cycle ==> HistogramCell(log, t, pc, final) && filled.value[pc][t] == final[pc][t];
      }
      final := filled.value;
    }
    return Success(final);
  }

  /* Projection onto CUDA lines */

  /** The sum at sample `t` of the selected rows before `n`. */
  function SelSum(list: Matrix, sel: set<nat>, t: nat, n: nat): nat
    requires n <= |list| && forall p :: 0 <= p < n && p in sel ==> t < |list[p]|
  {
    if n == 0 then 0
    else SelSum(list, sel, t, n - 1) + (if n - 1 in sel then list[n - 1][t] else 0)
  }

  /** The PTX lines of one CUDA line. */
  function PtxLines(m: map<nat, nat>, l: nat): set<nat> {
    set p | p in m && m[p] == l
  }

  /** What a CUDA line collects: at each sample, the sum of its PTX rows. */
  function LineRow(list: Matrix, sel: set<nat>, cols: nat): (row: seq<nat>)
    requires Rect(list, |list|, cols)
    ensures |row| == cols
  {
    seq(cols, t requires 0 <= t < cols => SelSum(list, sel, t, |list|))
  }

  ghost predicate IsLowest(lo: nat, s: set<nat>) {
    lo in s && forall x :: x in s ==> lo <= x
  }

  ghost predicate IsHighest(hi: nat, s: set<nat>) {
    hi in s && forall x :: x in s ==> x <= hi
  }

  /** One row per CUDA line from `lo` up to but not including `hi`, zero where nothing maps. */
  function Projected(list: Matrix, m: map<nat, nat>, lo: nat, hi: nat, cols: nat): (out: Matrix)
    requires lo <= hi && Rect(list, |list|, cols)
    ensures |out| == hi - lo
  {
    seq(hi - lo, i requires 0 <= i < hi - lo => LineRow(list, PtxLines(m, lo + i), cols))
  }

  ghost function Lowest(s: set<nat>): nat {
    if exists lo: nat :: IsLowest(lo, s) then var lo: nat :| IsLowest(lo, s); lo else 0
  }

  ghost function Highest(s: set<nat>): nat {
    if exists hi: nat :: IsHighest(hi, s) then var hi: nat :| IsHighest(hi, s); hi else 0
  }

  /** The projection spans the CUDA lines of the map, the last one excepted. */
  ghost function Project(list: Matrix, m: map<nat, nat>, cols: nat): (out: Matrix)
    requires Rect(list, |list|, cols) && |m| > 0
  {
    BoundsExist(m);
    Projected(list, m, Lowest(m.Values), Highest(m.Values), cols)
  }

  /** Row `i` is the column-wise sum of the PTX rows of line `Lowest + i`, and zero if no line maps there. */
  lemma {:induction false} ProjectRow(list: Matrix, m: map<nat, nat>, cols: nat, i: nat)
    requires Rect(list, |list|, cols) && |m| > 0 && i < |Project(list, m, cols)|
    ensures var l := Lowest(m.Values) + i;
      && Project(list, m, cols)[i] == LineRow(list, PtxLines(m, l), cols)
      && (l !in m.Values ==> Project(list, m, cols)[i] == seq(cols, t => 0))
  {
    BoundsExist(m);
    var l := Lowest(m.Values) + i;
    if l !in m.Values {
      assert forall p :: p in m ==> m[p] in m.Values;
      assert PtxLines(m, l) == {};
      NothingSelected(list, cols);
    }
  }

  lemma ProjectShape(list: Matrix, m: map<nat, nat>, cols: nat)
    requires Rect(list, |list|, cols) && |m| > 0
    ensures Rect(Project(list, m, cols), Highest(m.Values) - Lowest(m.Values), cols)
  {
    BoundsExist(m);
    forall i | 0 <= i < |Project(list, m, cols)| ensures |Project(list, m, cols)[i]| == cols {
      ProjectRow(list, m, cols, i);
    }
  }

  lemma BoundsExist(m: map<nat, nat>)
    requires |m| > 0
    ensures IsLowest(Lowest(m.Values), m.Values) && IsHighest(Highest(m.Values), m.Values)
    ensures Lowest(m.Values) <= Highest(m.Values)
  {
    var p :| p in m;
    assert m[p] in m.Values;
    LowestExists(m.Values);
    HighestExists(m.Values);
  }

  lemma {:induction false} LowestExists(s: set<nat>)
    requires s != {}
    ensures exists lo: nat :: IsLowest(lo, s)
  {
    var x :| x in s;
    if s == {x} {
      assert IsLowest(x, s);
    } else {
      LowestExists(s - {x});
      var y: nat :| IsLowest(y, s - {x});
      assert forall z :: z in s ==> z == x || z in s - {x};
      assert IsLowest(if x < y then x else y, s);
    }
  }

  lemma {:induction false} HighestExists(s: set<nat>)
    requires s != {}
    ensures exists hi: nat :: IsHighest(hi, s)
  {
    var x :| x in s;
    if s == {x} {
      assert IsHighest(x, s);
    } else {
      HighestExists(s - {x});
      var y: nat :| IsHighest(y, s - {x});
      assert forall z :: z in s ==> z == x || z in s - {x};
      assert IsHighest(if x > y then x else y, s);
    }
  }

  method Bounds(s: set<nat>) returns (lo: nat, hi: nat)
    requires s != {}
    ensures IsLowest(lo, s) && IsHighest(hi, s)
  {
    var x :| x in s;
    lo, hi := x, x;
    var todo := s - {x};
    while todo != {}
      invariant todo <= s
      invariant lo in s && hi in s && forall y :: y in s && y !in todo ==> lo <= y <= hi
    {
      var y :| y in todo;
      if y < lo {
        lo := y;
      }
      if y > hi {
        hi := y;
      }
      todo := todo - {y};
    }
  }

  lemma {:induction false} SelSumAdd(list: Matrix, sel: set<nat>, p: nat, t: nat, n: nat)
    requires n <= |list| && forall q :: 0 <= q < n ==> t < |list[q]|
    requires p !in sel
    ensures SelSum(list, sel + {p}, t, n) == SelSum(list, sel, t, n) + (if p < n then list[p][t] else 0)
  {
    if n > 0 {
      SelSumAdd(list, sel, p, t, n - 1);
    }
  }

  /** Adds one PTX row to a CUDA row, sample by sample. */
  method AddRow(row: seq<nat>, add: seq<nat>) returns (sum: seq<nat>)
    requires |row| == |add|
    ensures sum == seq(|row|, t requires 0 <= t < |row| => row[t] + add[t])
  {
    sum := row;
    for lengthData := 0 to |row|
      invariant |sum| == |row|
      invariant forall t :: 0 <= t < |row| ==> sum[t] == if t < lengthData then row[t] + add[t] else row[t]
    {
      sum := sum[lengthData := sum[lengthData] + add[lengthData]];
    }
  }

  /** Collects one CUDA line, visiting the mapped PTX lines in any order. */
  method CollectLine(list: Matrix, ptx2cudamap: map<nat, nat>, cudaline: nat, nSamples: nat)
    returns (r: Result<seq<nat>, CflogError>)
    requires Rect(list, |list|, nSamples)
    ensures r.Success? <==>
      (nSamples == 0 || forall p :: p in ptx2cudamap && ptx2cudamap[p] == cudaline ==> p < |list|)
    ensures r.Success? ==> r.value == LineRow(list, PtxLines(ptx2cudamap, cudaline), nSamples)
  {
    var row := seq(nSamples, t => 0);
    var todo := ptx2cudamap.Keys;
    ghost var done: set<nat> := {};
    NothingSelected(list, nSamples);
    while todo != {}
      invariant todo <= ptx2cudamap.Keys
      invariant done == PtxLines(ptx2cudamap, cudaline) - todo
      invariant row == LineRow(list, done, nSamples)
      invariant nSamples == 0 || forall p :: p in done ==> p < |list|
    {
      var ptxLine :| ptxLine in todo;
      todo := todo - {ptxLine};
      if ptx2cudamap[ptxLine] == cudaline {
        if nSamples > 0 {
          if ptxLine >= |list| {
            return Failure(IndexError);
          }
          var sum := AddRow(row, list[ptxLine]);
          LineRowAdd(list, done, ptxLine, nSamples);
          row := sum;
        }
        done := done + {ptxLine};
      }
    }
    assert done == PtxLines(ptx2cudamap, cudaline);
    assert forall p :: p in done <==> p in ptx2cudamap && ptx2cudamap[p] == cudaline;
    return Success(row);
  }

  lemma NothingSelected(list: Matrix, cols: nat)
    requires Rect(list, |list|, cols)
    ensures LineRow(list, {}, cols) == seq(cols, t => 0)
  {
    forall t | 0 <= t < cols ensures SelSum(list, {}, t, |list|) == 0 {
      SelNone(list, t, |list|);
    }
  }

  lemma {:induction false} SelNone(list: Matrix, t: nat, n: nat)
    requires n <= |list|
    ensures SelSum(list, {}, t, n) == 0
  {
    if n > 0 {
      SelNone(list, t, n - 1);
    }
  }

  lemma LineRowAdd(list: Matrix, sel: set<nat>, p: nat, cols: nat)
    requires Rect(list, |list|, cols) && p !in sel && p < |list|
    ensures var row := LineRow(list, sel, cols);
      LineRow(list, sel + {p}, cols) == seq(cols, t requires 0 <= t < cols => row[t] + list[p][t])
  {
    forall t | 0 <= t < cols {
      SelSumAdd(list, sel, p, t, |list|);
    }
  }

  /** The map reaches no row past the histogram. */
  ghost predicate MapFits(m: map<nat, nat>, rows: nat) {
    forall p :: p in m ==> p < rows
  }

  /** One collected row per CUDA line, the lines visited in any order. */
  method CollectLines(list: Matrix, ptx2cudamap: map<nat, nat>, nSamples: nat)
    returns (r: Result<map<nat, seq<nat>>, CflogError>)
    requires Rect(list, |list|, nSamples)
    ensures r.Success? <==> nSamples == 0 || MapFits(ptx2cudamap, |list|)
    ensures r.Success? ==> r.value.Keys == ptx2cudamap.Values
    ensures r.Success? ==> forall l :: l in r.value ==> r.value[l] == LineRow(list, PtxLines(ptx2cudamap, l), nSamples)
  {
    var tmp: map<nat, seq<nat>> := map[];
    var todo := ptx2cudamap.Values;
    while todo != {}
      invariant todo <= ptx2cudamap.Values
      invariant tmp.Keys == ptx2cudamap.Values - todo
      invariant forall l :: l in tmp ==> tmp[l] == LineRow(list, PtxLines(ptx2cudamap, l), nSamples)
      invariant nSamples == 0 || forall p :: p in ptx2cudamap && ptx2cudamap[p] !in todo ==> p < |list|
    {
      var cudaline :| cudaline in todo;
      var row := CollectLine(list, ptx2cudamap, cudaline, nSamples);
      if row.Failure? {
        return Failure(row.error);
      }
      tmp := tmp[cudaline := row.value];
      todo := todo - {cudaline};
    }
    return Success(tmp);
  }

  method CFLOGOrganizeCuda(list: Matrix, ptx2cudamap: map<nat, nat>, ghost cols: nat)
    returns (r: Result<Matrix, CflogError>)
    requires Rect(list, |list|, cols)
    ensures r.Success? <==> |ptx2cudamap| > 0 && |list| > 0 && (cols == 0 || MapFits(ptx2cudamap, |list|))
    ensures r.Success? ==> r.value == Project(list, ptx2cudamap, cols)
  {
    if |ptx2cudamap| == 0 {
      return Failure(ValueError);
    }
    if |list| == 0 {
      return Failure(IndexError);
    }
    var nSamples := |list[0]|;
    var collected := CollectLines(list, ptx2cudamap, nSamples);
    if collected.Failure? {
      return Failure(collected.error);
    }
    var tmp := collected.value;
    var p :| p in ptx2cudamap;
    assert ptx2cudamap[p] in tmp;
    var first, last := Bounds(tmp.Keys);
    BoundsExist(ptx2cudamap);
    var final: Matrix := [];
    NothingSelected(list, nSamples);
    for iter := first to last
      invariant |final| == iter - first
      invariant forall i :: 0 <= i < iter - first ==>
        final[i] == LineRow(list, PtxLines(ptx2cudamap, first + i), nSamples)
    {
      if iter in tmp {
        final := final + [tmp[iter]];
      } else {
        assert PtxLines(ptx2cudamap, iter) == {};
        final := final + [seq(nSamples, t => 0)];
      }
    }
    return Success(final);
  }

  /* What the projection keeps */

  /** The sum of the selected rows before `n`. */
  function RowsTotal(list: Matrix, sel: set<nat>, n: nat): nat
    requires n <= |list|
  {
    if n == 0 then 0
    else RowsTotal(list, sel, n - 1) + (if n - 1 in sel then Sum(list[n - 1]) else 0)
  }

  /** The PTX lines mapped to CUDA lines from `lo` up to but not including `hi`. */
  function PtxLinesBetween(m: map<nat, nat>, lo: nat, hi: nat): set<nat> {
    set p | p in m && lo <= m[p] < hi
  }

  /** The projection sums to the PTX rows mapped below the last CUDA line; the rows of the last line are
      what it leaves out. */
  lemma {:induction false} ProjectionConserves(list: Matrix, m: map<nat, nat>, cols: nat)
    requires Rect(list, |list|, cols) && |m| > 0
    ensures Total(Project(list, m, cols)) + RowsTotal(list, PtxLines(m, Highest(m.Values)), |list|)
      == RowsTotal(list, m.Keys, |list|)
  {
    BoundsExist(m);
    var lo, hi := Lowest(m.Values), Highest(m.Values);
    TotalBetween(list, m, lo, hi, cols);
    RowsTotalSplit(list, PtxLinesBetween(m, lo, hi), PtxLines(m, hi), |list|);
    assert forall p :: p in m ==> m[p] in m.Values;
    assert PtxLinesBetween(m, lo, hi) + PtxLines(m, hi) == m.Keys;
  }

  lemma {:induction false} SumZero(s: seq<nat>)
    ensures Sum(s) == 0 <==> forall t :: 0 <= t < |s| ==> s[t] == 0
  {
    if s != [] {
      SumZero(s[..|s| - 1]);
    }
  }

  lemma {:induction false} RowsTotalZero(list: Matrix, sel: set<nat>, n: nat)
    requires n <= |list|
    ensures RowsTotal(list, sel, n) == 0 <==>
      forall p, t :: 0 <= p < n && p in sel && 0 <= t < |list[p]| ==> list[p][t] == 0
  {
    if n > 0 {
      RowsTotalZero(list, sel, n - 1);
      SumZero(list[n - 1]);
    }
  }

  /** The projection is complete exactly when the rows of the last CUDA line hold nothing but zeros. */
  lemma {:induction false} ProjectionComplete(list: Matrix, m: map<nat, nat>, cols: nat)
    requires Rect(list, |list|, cols) && |m| > 0
    ensures Total(Project(list, m, cols)) == RowsTotal(list, m.Keys, |list|) <==>
      forall p, t :: 0 <= p < |list| && p in PtxLines(m, Highest(m.Values)) && 0 <= t < cols ==> list[p][t] == 0
  {
    ProjectionConserves(list, m, cols);
    RowsTotalZero(list, PtxLines(m, Highest(m.Values)), |list|);
  }

  /** A program with one CUDA line loses everything. */
  lemma {:induction false} OnlyLineDropped()
    ensures var list, m: map<nat, nat> := [[1]], map[0 := 7];
      |m| > 0 && Project(list, m, 1) == [] && RowsTotal(list, m.Keys, 1) == 1
  {
    var list, m: map<nat, nat> := [[1]], map[0 := 7];
    BoundsExist(m);
    assert m.Values == {7} by {
      assert m[0] in m.Values;
    }
    assert Sum([1]) == Sum([]) + 1;
    assert RowsTotal(list, m.Keys, 1) == RowsTotal(list, m.Keys, 0) + Sum([1]);
  }

  lemma ProjectedSnoc(list: Matrix, m: map<nat, nat>, lo: nat, hi: nat, cols: nat)
    requires lo <= hi && Rect(list, |list|, cols)
    ensures Projected(list, m, lo, hi + 1, cols) ==
      Projected(list, m, lo, hi, cols) + [LineRow(list, PtxLines(m, hi), cols)]
  {
  }

  lemma LinesSnoc(m: map<nat, nat>, lo: nat, hi: nat)
    requires lo <= hi
    ensures PtxLinesBetween(m, lo, hi) !! PtxLines(m, hi)
    ensures PtxLinesBetween(m, lo, hi + 1) == PtxLinesBetween(m, lo, hi) + PtxLines(m, hi)
  {
  }

  lemma {:induction false} TotalBetween(list: Matrix, m: map<nat, nat>, lo: nat, hi: nat, cols: nat)
    requires lo <= hi && Rect(list, |list|, cols)
    ensures Total(Projected(list, m, lo, hi, cols)) == RowsTotal(list, PtxLinesBetween(m, lo, hi), |list|)
  {
    if lo == hi {
      assert PtxLinesBetween(m, lo, hi) == {};
      NoRowsTotal(list, |list|);
    } else {
      var before, lines := hi - 1, PtxLines(m, hi - 1);
      TotalBetween(list, m, lo, before, cols);
      ProjectedSnoc(list, m, lo, before, cols);
      LinesSnoc(m, lo, before);
      TotalSnoc(Projected(list, m, lo, before, cols), LineRow(list, lines, cols));
      LineRowTotal(list, lines, cols, |list|);
      RowsTotalSplit(list, PtxLinesBetween(m, lo, before), lines, |list|);
    }
  }

  lemma {:induction false} NoRowsTotal(list: Matrix, n: nat)
    requires n <= |list|
    ensures RowsTotal(list, {}, n) == 0
  {
    if n > 0 {
      NoRowsTotal(list, n - 1);
    }
  }

  lemma {:induction false} RowsTotalSplit(list: Matrix, a: set<nat>, b: set<nat>, n: nat)
    requires n <= |list| && a !! b
    ensures RowsTotal(list, a + b, n) == RowsTotal(list, a, n) + RowsTotal(list, b, n)
  {
    if n > 0 {
      RowsTotalSplit(list, a, b, n - 1);
    }
  }

  /** Summing a column-wise sum along the samples is summing the rows. */
  lemma {:induction false} LineRowTotal(list: Matrix, sel: set<nat>, cols: nat, n: nat)
    requires n <= |list| && Rect(list, |list|, cols)
    ensures Sum(seq(cols, t requires 0 <= t < cols => SelSum(list, sel, t, n))) == RowsTotal(list, sel, n)
  {
    var now := seq(cols, t requires 0 <= t < cols => SelSum(list, sel, t, n));
    if n == 0 {
      ZeroSum(now);
    } else {
      var before := seq(cols, t requires 0 <= t < cols => SelSum(list, sel, t, n - 1));
      LineRowTotal(list, sel, cols, n - 1);
      if n - 1 in sel {
        SumOfSums(before, list[n - 1], now);
      } else {
        assert now == before;
      }
    }
  }
}
