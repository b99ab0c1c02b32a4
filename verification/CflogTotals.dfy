/** The running totals over the kernels of a log (aerialvision/organizedata.py): PTX and CUDA histograms
    are added cell by cell into the first kernel's own tables. */
module CflogTotals {
  import opened Results
  import opened Cflog

  /** Cell (i, j) comes before cell (r, c), row by row. */
  predicate Before(i: nat, j: nat, r: nat, c: nat) {
    i < r || (i == r && j < c)
  }

  /** A cell of `q`, zero outside it. */
  function CellOf(q: Matrix, i: nat, j: nat): nat {
    if i < |q| && j < |q[i]| then q[i][j] else 0
  }

  /** `p` with the cells of `q` before (r, c) added. */
  function AddedUpTo(p: Matrix, q: Matrix, r: nat, c: nat): (sum: Matrix)
    ensures |sum| == |p|
  {
    seq(|p|, i requires 0 <= i < |p| => AddedRow(p[i], q, i, r, c))
  }

  function AddedRow(row: seq<nat>, q: Matrix, i: nat, r: nat, c: nat): (sum: seq<nat>)
    ensures |sum| == |row|
  {
    seq(|row|, j requires 0 <= j < |row| => row[j] + if Before(i, j, r, c) then CellOf(q, i, j) else 0)
  }

  /** Cell (i, j) of `q` has a counterpart in `p`, and if cells hold 32 bits the sum fits. */
  predicate CellOk(p: Matrix, q: Matrix, i: nat, j: nat, bounded: bool)
    requires i < |q| && j < |q[i]|
  {
    i < |p| && j < |p[i]| && (bounded ==> p[i][j] + q[i][j] < TWO_TO_32)
  }

  /** Where adding `q` to `p` stops: at the first cell from (r, c) on that raises, or past the last row. */
  function StopFrom(p: Matrix, q: Matrix, bounded: bool, r: nat, c: nat): (nat, nat)
    decreases |q| - r, if r < |q| then |q[r]| - c else 0
  {
    if r >= |q| then (|q|, 0)
    else if c >= |q[r]| then StopFrom(p, q, bounded, r + 1, 0)
    else if CellOk(p, q, r, c, bounded) then StopFrom(p, q, bounded, r, c + 1)
    else (r, c)
  }

  class CflogVariable {
    var data: Matrix

    constructor (data: Matrix)
      ensures this.data == data
    {
      this.data := data;
    }

    /** Adds `src` cell by cell; an exception ends the addition where it stands. */
    method AddInPlace(src: CflogVariable, bounded: bool) returns (ok: bool)
      requires src != this
      modifies this
      ensures var stop := StopFrom(old(data), src.data, bounded, 0, 0);
        && (ok <==> stop.0 == |src.data|)
        && data == AddedUpTo(old(data), src.data, stop.0, stop.1)
    {
      ghost var p, q := data, src.data;
      AddNothing(p, q);
      for rows := 0 to |src.data|
        invariant data == AddedUpTo(p, q, rows, 0)
        invariant StopFrom(p, q, bounded, 0, 0) == StopFrom(p, q, bounded, rows, 0)
      {
        for columns := 0 to |src.data[rows]|
          invariant data == AddedUpTo(p, q, rows, columns)
          invariant StopFrom(p, q, bounded, 0, 0) == StopFrom(p, q, bounded, rows, columns)
        {
          if rows >= |data| || columns >= |data[rows]|
             || (bounded && data[rows][columns] + src.data[rows][columns] >= TWO_TO_32) {
            return false;
          }
          AddOne(p, q, rows, columns, data);
          data := data[rows := data[rows][columns := data[rows][columns] + src.data[rows][columns]]];
        }
        AddRowDone(p, q, rows);
      }
      return true;
    }
  }

  lemma AddNothing(p: Matrix, q: Matrix)
    ensures AddedUpTo(p, q, 0, 0) == p
  {
    forall i | 0 <= i < |p| ensures AddedRow(p[i], q, i, 0, 0) == p[i] {
    }
  }

  lemma AddOne(p: Matrix, q: Matrix, r: nat, c: nat, m: Matrix)
    requires r < |q| && c < |q[r]| && r < |p| && c < |p[r]|
    requires m == AddedUpTo(p, q, r, c)
    ensures |m[r]| == |p[r]| && m[r][c] == p[r][c]
    ensures m[r := m[r][c := m[r][c] + q[r][c]]] == AddedUpTo(p, q, r, c + 1)
  {
    var next := AddedUpTo(p, q, r, c + 1);
    forall i | 0 <= i < |p| ensures next[i] == if i == r then m[r][c := m[r][c] + q[r][c]] else m[i] {
    }
  }

  lemma AddRowDone(p: Matrix, q: Matrix, r: nat)
    requires r < |q|
    ensures AddedUpTo(p, q, r, |q[r]|) == AddedUpTo(p, q, r + 1, 0)
  {
    forall i | 0 <= i < |p| ensures AddedRow(p[i], q, i, r, |q[r]|) == AddedRow(p[i], q, i, r + 1, 0) {
    }
  }

  /* The running totals as a fold */

  datatype Totals = Totals(ptx: Matrix, cuda: Matrix)

  /** The columns of a histogram. */
  function Cols(m: Matrix): nat {
    if |m| > 0 then |m[0]| else 0
  }

  ghost predicate IsTable(m: Matrix) {
    |m| > 0 && Rect(m, |m|, Cols(m))
  }

  /** The PTX total with one more table, added up to the first cell that raises. */
  function AddPtx(p: Matrix, h: Matrix): Matrix {
    var stop := StopFrom(p, h, true, 0, 0);
    AddedUpTo(p, h, stop.0, stop.1)
  }

  /** One more kernel: its PTX table, then its CUDA table unless the first addition raised. */
  ghost function AddKernel(totals: Totals, h: Matrix, m: map<nat, nat>): Totals
    requires IsTable(h) && |m| > 0
  {
    if StopFrom(totals.ptx, h, true, 0, 0).0 != |h| then Totals(AddPtx(totals.ptx, h), totals.cuda)
    else
      var cuda := Project(h, m, Cols(h));
      var stop := StopFrom(totals.cuda, cuda, false, 0, 0);
      Totals(AddPtx(totals.ptx, h), AddedUpTo(totals.cuda, cuda, stop.0, stop.1))
  }

  ghost predicate AllTables(tables: seq<Matrix>) {
    forall k :: 0 <= k < |tables| ==> IsTable(tables[k])
  }

  ghost function Accumulated(tables: seq<Matrix>, m: map<nat, nat>): Totals
    requires |tables| > 0 && |m| > 0 && AllTables(tables)
  {
    assert IsTable(tables[0]);
    if |tables| == 1 then Totals(tables[0], Project(tables[0], m, Cols(tables[0])))
    else AddKernel(Accumulated(tables[..|tables| - 1], m), tables[|tables| - 1], m)
  }

  /** The PTX total alone. */
  function PtxTotal(tables: seq<Matrix>): Matrix
    requires |tables| > 0
  {
    if |tables| == 1 then tables[0] else AddPtx(PtxTotal(tables[..|tables| - 1]), tables[|tables| - 1])
  }

  lemma {:induction false} PtxTotalAccumulated(tables: seq<Matrix>, m: map<nat, nat>)
    requires |tables| > 0 && |m| > 0 && AllTables(tables)
    ensures Accumulated(tables, m).ptx == PtxTotal(tables)
  {
    if |tables| > 1 {
      PtxTotalAccumulated(tables[..|tables| - 1], m);
    }
  }

  /** The map from PTX to CUDA lines, absent when logs are not converted to CUDA lines. */
  type LineConversion = Option<map<nat, nat>>

  /** One more kernel, with or without CUDA totals. */
  ghost function NextTotals(totals: Totals, h: Matrix, newMap: LineConversion): Totals
    requires IsTable(h) && (newMap.Some? ==> |newMap.value| > 0)
  {
    match newMap
    case None => Totals(AddPtx(totals.ptx, h), totals.cuda)
    case Some(m) => AddKernel(totals, h, m)
  }

  /** What the totals hold after these tables; without conversion the CUDA total stays empty. */
  ghost predicate TotalsAre(tables: seq<Matrix>, newMap: LineConversion, totals: Totals)
    requires |tables| > 0 && AllTables(tables)
  {
    match newMap
    case None => totals == Totals(PtxTotal(tables), [])
    case Some(m) => |m| > 0 && totals == Accumulated(tables, m)
  }

  ghost predicate KernelOk(log: RawLog, newMap: LineConversion) {
    && LogOk(log)
    && match newMap {
         case None => true
         case Some(m) => |m| > 0 && (|log.pcs| == 0 || MapFits(m, log.maxPC + 1))
       }
  }

  ghost predicate AreTables(logs: seq<RawLog>, tables: seq<Matrix>) {
    |tables| == |logs| && forall k :: 0 <= k < |logs| ==> IsTableOf(logs[k], tables[k])
  }

  ghost predicate IsTableOf(log: RawLog, table: Matrix) {
    LogOk(log) && IsHistogram(log, table) && IsTable(table)
  }

  /** `cuda` is the variable with the projection of `table`, absent without conversion. */
  ghost predicate IsProjection(table: Matrix, newMap: LineConversion, cuda: Option<CflogVariable>)
    requires IsTable(table)
    reads if cuda.Some? then {cuda.value} else {}
  {
    match newMap
    case None => cuda.None?
    case Some(m) => |m| > 0 && cuda.Some? && cuda.value.data == Project(table, m, Cols(table))
  }

  /** Organizes one kernel's log into its PTX variable and, if asked to, a new CUDA variable. */
  method OrganizeKernel(log: RawLog, ptxVar: CflogVariable, newMap: LineConversion)
    returns (r: Result<Option<CflogVariable>, CflogError>)
    modifies ptxVar
    ensures r.Success? <==> KernelOk(log, newMap)
    ensures r.Success? ==>
      && (r.value.Some? ==> fresh(r.value.value))
      && IsTableOf(log, ptxVar.data)
      && IsProjection(ptxVar.data, newMap, r.value)
  {
    var table := CFLOGOrganizePTX(log);
    if table.Failure? {
      return Failure(table.error);
    }
    ptxVar.data := table.value;
    if newMap.None? {
      return Success(None);
    }
    var projection := CFLOGOrganizeCuda(table.value, newMap.value, |log.pcs|);
    if projection.Failure? {
      return Failure(projection.error);
    }
    var cuda := new CflogVariable(projection.value);
    return Success(Some(cuda));
  }

  /** Adds a kernel's PTX and CUDA tables to the totals; the CUDA addition is skipped when the PTX one
      raised, and either exception is swallowed. */
  method AddToTotals(globalPtx: CflogVariable, globalCuda: CflogVariable, ptxVar: CflogVariable,
                     cudaVar: Option<CflogVariable>, ghost newMap: LineConversion)
    requires IsTable(ptxVar.data) && IsProjection(ptxVar.data, newMap, cudaVar)
    requires globalPtx !in {globalCuda, ptxVar} && globalCuda != ptxVar
    requires cudaVar.Some? ==> cudaVar.value !in {globalPtx, globalCuda}
    modifies globalPtx, globalCuda
    ensures Totals(globalPtx.data, globalCuda.data)
      == NextTotals(Totals(old(globalPtx.data), old(globalCuda.data)), ptxVar.data, newMap)
  {
    var added := globalPtx.AddInPlace(ptxVar, true);
    if added && cudaVar.Some? {
      var _ := globalCuda.AddInPlace(cudaVar.value, false);
    }
  }

  /** The first `count` kernels are organized into `tables` and added up. */
  ghost predicate KernelsDone(
    logs: seq<RawLog>, newMap: LineConversion, count: nat, tables: seq<Matrix>, totals: Totals)
  {
    && count <= |logs| && |tables| == count && AllTables(tables)
    && AllKernelsOk(logs[..count], newMap) && AreTables(logs[..count], tables)
    && (if count == 0 then totals == Totals([], []) else TotalsAre(tables, newMap, totals))
  }

  lemma {:induction false} FirstKernelDone(logs: seq<RawLog>, newMap: LineConversion, h: Matrix, cuda: Matrix)
    requires |logs| > 0 && KernelOk(logs[0], newMap) && IsTableOf(logs[0], h)
    requires match newMap { case None => cuda == [] case Some(m) => |m| > 0 && cuda == Project(h, m, Cols(h)) }
    ensures KernelsDone(logs, newMap, 1, [h], Totals(h, cuda))
  {
    assert logs[..1] == [logs[0]];
  }

  lemma {:induction false} NextKernelDone(
    logs: seq<RawLog>, newMap: LineConversion, count: nat, tables: seq<Matrix>, totals: Totals, h: Matrix)
    requires KernelsDone(logs, newMap, count, tables, totals) && 0 < count < |logs|
    requires KernelOk(logs[count], newMap) && IsTableOf(logs[count], h)
    ensures KernelsDone(logs, newMap, count + 1, tables + [h], NextTotals(totals, h, newMap))
  {
    var all := tables + [h];
    assert logs[..count + 1] == logs[..count] + [logs[count]];
    assert all[..count] == tables && all[count] == h && AllTables(all);
  }

  /** One pass of the loop: organizes a kernel's log and makes its variables the totals, or adds them in. */
  method AddLog(globalPtx: CflogVariable, globalCuda: CflogVariable, logs: seq<RawLog>, count: nat,
                ptxVar: CflogVariable, newMap: LineConversion, ghost tables: seq<Matrix>)
    returns (r: Result<(CflogVariable, CflogVariable), CflogError>)
    requires count < |logs| && KernelsDone(logs, newMap, count, tables, Totals(globalPtx.data, globalCuda.data))
    requires globalPtx !in {globalCuda, ptxVar} && globalCuda != ptxVar
    modifies globalPtx, globalCuda, ptxVar
    ensures r.Success? <==> KernelOk(logs[count], newMap)
    ensures r.Success? ==>
      && r.value.0 == (if count == 0 then ptxVar else globalPtx)
      && (r.value.1 == globalCuda || fresh(r.value.1)) && r.value.1 != r.value.0
      && (count == 0 || r.value.1 == globalCuda)
      && KernelsDone(logs, newMap, count + 1, tables + [ptxVar.data], Totals(r.value.0.data, r.value.1.data))
  {
    ghost var totals := Totals(globalPtx.data, globalCuda.data);
    var cuda := OrganizeKernel(logs[count], ptxVar, newMap);
    if cuda.Failure? {
      return Failure(cuda.error);
    }
    if count == 0 {
      var first := if cuda.value.Some? then cuda.value.value else globalCuda;
      FirstKernelDone(logs, newMap, ptxVar.data, first.data);
      assert tables + [ptxVar.data] == [ptxVar.data];
      return Success((ptxVar, first));
    }
    AddToTotals(globalPtx, globalCuda, ptxVar, cuda.value, newMap);
    NextKernelDone(logs, newMap, count, tables, totals, ptxVar.data);
    return Success((globalPtx, globalCuda));
  }

  /** Organizes every kernel's log into its variable and keeps the running totals.  The totals are not
      copies: they are the first kernel's own PTX and CUDA variables, which the later kernels are added
      into in place. */
  method OrganizeCflogs(logs: seq<RawLog>, ptxVars: seq<CflogVariable>, newMap: LineConversion)
    returns (r: Result<(CflogVariable, CflogVariable), CflogError>, ghost tables: seq<Matrix>)
    requires |ptxVars| == |logs| && forall i, j :: 0 <= i < j < |ptxVars| ==> ptxVars[i] != ptxVars[j]
    modifies set v | v in ptxVars
    ensures r.Success? <==> AllKernelsOk(logs, newMap)
    ensures r.Success? && |logs| == 0 ==> r.value.0.data == [] && r.value.1.data == []
    ensures r.Success? && |logs| > 0 ==>
      && AreTables(logs, tables) && AllTables(tables)
      && r.value.0 == ptxVars[0]
      && TotalsAre(tables, newMap, Totals(r.value.0.data, r.value.1.data))
      && forall k :: 1 <= k < |logs| ==> ptxVars[k].data == tables[k]
  {
    var globalPtx := new CflogVariable([]);
    var globalCuda := new CflogVariable([]);
    tables := [];
    for count := 0 to |logs|
      invariant fresh(globalCuda) && globalCuda != globalPtx
      invariant KernelsDone(logs, newMap, count, tables, Totals(globalPtx.data, globalCuda.data))
      invariant if count == 0 then fresh(globalPtx) else globalPtx == ptxVars[0]
      invariant forall k :: 1 <= k < count ==> ptxVars[k].data == tables[k]
    {
      var added := AddLog(globalPtx, globalCuda, logs, count, ptxVars[count], newMap, tables);
      if added.Failure? {
        return Failure(added.error), tables;
      }
      globalPtx, globalCuda := added.value.0, added.value.1;
      tables := tables + [ptxVars[count].data];
    }
    assert logs[..|logs|] == logs;
    return Success((globalPtx, globalCuda)), tables;
  }

  ghost predicate AllKernelsOk(logs: seq<RawLog>, newMap: LineConversion) {
    forall k :: 0 <= k < |logs| ==> KernelOk(logs[k], newMap)
  }

  /* Aggregating then adding, or adding then aggregating */

  /** The part of `q` before (r, c), laid over a table of the shape of `p`. */
  function Part(p: Matrix, q: Matrix, r: nat, c: nat): (d: Matrix)
    ensures |d| == |p|
  {
    seq(|p|, i requires 0 <= i < |p| => PartRow(|p[i]|, q, i, r, c))
  }

  function PartRow(cols: nat, q: Matrix, i: nat, r: nat, c: nat): (d: seq<nat>)
    ensures |d| == cols
  {
    seq(cols, j requires 0 <= j < cols => if Before(i, j, r, c) then CellOf(q, i, j) else 0)
  }

  /** `sum` is the cell-wise sum of two tables of its shape. */
  ghost predicate IsSum(a: Matrix, b: Matrix, sum: Matrix) {
    |a| == |b| == |sum| && forall i :: 0 <= i < |sum| ==> IsRowSum(a[i], b[i], sum[i])
  }

  ghost predicate IsRowSum(a: seq<nat>, b: seq<nat>, sum: seq<nat>) {
    |a| == |b| == |sum| && forall j :: 0 <= j < |sum| ==> sum[j] == a[j] + b[j]
  }

  lemma AddedIsSum(p: Matrix, q: Matrix, r: nat, c: nat)
    ensures IsSum(p, Part(p, q, r, c), AddedUpTo(p, q, r, c))
  {
  }

  lemma {:induction false} SelSumIsLinear(a: Matrix, b: Matrix, sum: Matrix, sel: set<nat>, cols: nat, t: nat, n: nat)
    requires n <= |a| && t < cols && Rect(a, |a|, cols) && IsSum(a, b, sum)
    ensures Rect(b, |a|, cols) && Rect(sum, |a|, cols)
    ensures SelSum(sum, sel, t, n) == SelSum(a, sel, t, n) + SelSum(b, sel, t, n)
  {
    assert forall i :: 0 <= i < |a| ==> IsRowSum(a[i], b[i], sum[i]);
    if n > 0 {
      SelSumIsLinear(a, b, sum, sel, cols, t, n - 1);
      assert IsRowSum(a[n - 1], b[n - 1], sum[n - 1]);
    }
  }

  /** Projection is linear. */
  lemma {:induction false} ProjectIsLinear(a: Matrix, b: Matrix, sum: Matrix, m: map<nat, nat>, cols: nat)
    requires |m| > 0 && Rect(a, |a|, cols) && IsSum(a, b, sum)
    ensures Rect(b, |b|, cols) && Rect(sum, |sum|, cols)
    ensures IsSum(Project(a, m, cols), Project(b, m, cols), Project(sum, m, cols))
  {
    assert forall i :: 0 <= i < |a| ==> IsRowSum(a[i], b[i], sum[i]);
    BoundsExist(m);
    var lo, hi := Lowest(m.Values), Highest(m.Values);
    forall i | 0 <= i < hi - lo
      ensures IsRowSum(Project(a, m, cols)[i], Project(b, m, cols)[i], Project(sum, m, cols)[i])
    {
      var sel := PtxLines(m, lo + i);
      forall t | 0 <= t < cols
        ensures SelSum(sum, sel, t, |a|) == SelSum(a, sel, t, |a|) + SelSum(b, sel, t, |a|)
      {
        SelSumIsLinear(a, b, sum, sel, cols, t, |a|);
      }
    }
  }

  /** Every cell of `q` can be added to `p`. */
  ghost predicate Addable(p: Matrix, q: Matrix, bounded: bool) {
    forall i, j :: 0 <= i < |q| && 0 <= j < |q[i]| ==> CellOk(p, q, i, j, bounded)
  }

  lemma {:induction false} NothingStops(p: Matrix, q: Matrix, bounded: bool, r: nat, c: nat)
    requires Addable(p, q, bounded)
    ensures StopFrom(p, q, bounded, r, c) == (|q|, 0)
    decreases |q| - r, if r < |q| then |q[r]| - c else 0
  {
    if r < |q| {
      if c >= |q[r]| {
        NothingStops(p, q, bounded, r + 1, 0);
      } else {
        assert CellOk(p, q, r, c, bounded);
        NothingStops(p, q, bounded, r, c + 1);
      }
    }
  }

  /** The walk stops at the first cell that cannot be added: those it passes can, that one cannot. */
  lemma {:induction false} StopIsFirst(p: Matrix, q: Matrix, bounded: bool, r: nat, c: nat, i: nat, j: nat)
    requires r <= |q| && i < |q| && j < |q[i]| && !Before(i, j, r, c)
    ensures var stop := StopFrom(p, q, bounded, r, c);
      && (Before(i, j, stop.0, stop.1) ==> CellOk(p, q, i, j, bounded))
      && (stop.0 == |q| || (stop.0 < |q| && stop.1 < |q[stop.0]| && !CellOk(p, q, stop.0, stop.1, bounded)))
    decreases |q| - r, if r < |q| then |q[r]| - c else 0
  {
    if r < |q| {
      if c >= |q[r]| {
        StopIsFirst(p, q, bounded, r + 1, 0, i, j);
      } else if !(i == r && j == c) {
        StopIsFirst(p, q, bounded, r, c + 1, i, j);
      } else if CellOk(p, q, r, c, bounded) {
        StopOnward(p, q, bounded, r, c + 1);
      }
    }
  }

  lemma {:induction false} StopOnward(p: Matrix, q: Matrix, bounded: bool, r: nat, c: nat)
    requires r <= |q|
    ensures var stop := StopFrom(p, q, bounded, r, c);
      && (stop.0 == |q| || (stop.0 < |q| && stop.1 < |q[stop.0]| && !CellOk(p, q, stop.0, stop.1, bounded)))
    decreases |q| - r, if r < |q| then |q[r]| - c else 0
  {
    if r < |q| {
      if c >= |q[r]| {
        StopOnward(p, q, bounded, r + 1, 0);
      } else if CellOk(p, q, r, c, bounded) {
        StopOnward(p, q, bounded, r, c + 1);
      }
    }
  }

  /** The walk gets past the last row exactly when every cell can be added. */
  lemma {:induction false} PassesExactly(p: Matrix, q: Matrix, bounded: bool)
    ensures StopFrom(p, q, bounded, 0, 0).0 == |q| <==> Addable(p, q, bounded)
  {
    if Addable(p, q, bounded) {
      NothingStops(p, q, bounded, 0, 0);
    } else {
      var i, j :| 0 <= i < |q| && 0 <= j < |q[i]| && !CellOk(p, q, i, j, bounded);
      StopIsFirst(p, q, bounded, 0, 0, i, j);
    }
  }

  lemma {:induction false} PartSelSum(p: Matrix, q: Matrix, sel: set<nat>, cols: nat, qCols: nat, t: nat, n: nat)
    requires Rect(p, |p|, cols) && Rect(q, |q|, qCols) && |q| <= n <= |p| && t < cols
    ensures var d := Part(p, q, |q|, 0);
      Rect(d, |p|, cols) &&
      SelSum(d, sel, t, n) == if t < qCols then SelSum(q, sel, t, |q|) else 0
  {
    var d := Part(p, q, |q|, 0);
    if n > |q| {
      PartSelSum(p, q, sel, cols, qCols, t, n - 1);
    } else {
      PartPrefix(p, q, sel, cols, qCols, t, n);
    }
  }

  lemma {:induction false} PartPrefix(p: Matrix, q: Matrix, sel: set<nat>, cols: nat, qCols: nat, t: nat, n: nat)
    requires Rect(p, |p|, cols) && Rect(q, |q|, qCols) && n <= |q| <= |p| && t < cols
    ensures var d := Part(p, q, |q|, 0);
      Rect(d, |p|, cols) &&
      SelSum(d, sel, t, n) == if t < qCols then SelSum(q, sel, t, n) else 0
  {
    if n > 0 {
      PartPrefix(p, q, sel, cols, qCols, t, n - 1);
      assert Part(p, q, |q|, 0)[n - 1][t] == CellOf(q, n - 1, t);
    }
  }

  /** Projecting a smaller table and laying the result over a larger projection, or the other way round. */
  lemma ProjectPart(p: Matrix, q: Matrix, m: map<nat, nat>, cols: nat, qCols: nat)
    requires |m| > 0 && Rect(p, |p|, cols) && Rect(q, |q|, qCols) && |q| <= |p|
    ensures Rect(Part(p, q, |q|, 0), |p|, cols)
    ensures var big, small := Project(p, m, cols), Project(q, m, qCols);
      Project(Part(p, q, |q|, 0), m, cols) == Part(big, small, |small|, 0)
  {
    BoundsExist(m);
    var d := Part(p, q, |q|, 0);
    assert Rect(d, |p|, cols);
    var lo := Lowest(m.Values);
    var big, small := Project(p, m, cols), Project(q, m, qCols);
    ProjectShape(p, m, cols);
    ProjectShape(q, m, qCols);
    forall i | 0 <= i < |big|
      ensures Project(d, m, cols)[i] == PartRow(cols, small, i, |small|, 0)
    {
      ProjectRow(d, m, cols, i);
      ProjectRow(q, m, qCols, i);
      var sel := PtxLines(m, lo + i);
      forall t | 0 <= t < cols
        ensures LineRow(d, sel, cols)[t] == PartRow(cols, small, i, |small|, 0)[t]
      {
        PartSelSum(p, q, sel, cols, qCols, t, |p|);
        assert CellOf(small, i, t) == if t < qCols then SelSum(q, sel, t, |q|) else 0;
      }
    }
  }

  /* How far the CUDA total is from the projection of the PTX total */

  lemma PartWhole(a: Matrix, q: Matrix)
    requires |a| == |q| && forall i :: 0 <= i < |a| ==> |a[i]| == |q[i]|
    ensures Part(a, q, |q|, 0) == q
  {
    forall i | 0 <= i < |a| ensures PartRow(|a[i]|, q, i, |q|, 0) == q[i] {
    }
  }

  lemma PartByShape(a: Matrix, b: Matrix, q: Matrix, r: nat, c: nat)
    requires |a| == |b| && forall i :: 0 <= i < |a| ==> |a[i]| == |b[i]|
    ensures Part(a, q, r, c) == Part(b, q, r, c)
  {
  }

  lemma SumsShift(cuda: Matrix, gap: Matrix, full: Matrix, part: Matrix, cuda': Matrix, full': Matrix)
    requires IsSum(cuda, gap, full) && IsSum(cuda, part, cuda') && IsSum(full, part, full')
    ensures IsSum(cuda', gap, full')
  {
    forall i | 0 <= i < |cuda| ensures IsRowSum(cuda'[i], gap[i], full'[i]) {
      assert IsRowSum(cuda[i], gap[i], full[i]) && IsRowSum(cuda[i], part[i], cuda'[i]);
      assert IsRowSum(full[i], part[i], full'[i]);
    }
  }

  lemma SumsAssociate(cuda: Matrix, gap: Matrix, full: Matrix, part: Matrix, more: Matrix, full': Matrix)
    requires IsSum(cuda, gap, full) && IsSum(gap, part, more) && IsSum(full, part, full')
    ensures IsSum(cuda, more, full')
  {
    forall i | 0 <= i < |cuda| ensures IsRowSum(cuda[i], more[i], full'[i]) {
      assert IsRowSum(cuda[i], gap[i], full[i]) && IsRowSum(gap[i], part[i], more[i]);
      assert IsRowSum(full[i], part[i], full'[i]);
    }
  }

  lemma SumShape(a: Matrix, b: Matrix, sum: Matrix)
    requires IsSum(a, b, sum)
    ensures |a| == |b| == |sum| && forall i :: 0 <= i < |a| ==> |a[i]| == |b[i]| == |sum[i]|
  {
    assert forall i :: 0 <= i < |sum| ==> IsRowSum(a[i], b[i], sum[i]);
  }

  /** A table that can be added and has samples is no larger than the total. */
  lemma AddableFits(p: Matrix, h: Matrix, cols: nat)
    requires IsTable(h) && Rect(p, |p|, cols) && Addable(p, h, true) && Cols(h) > 0
    ensures |h| <= |p| && Cols(h) <= cols
  {
    assert CellOk(p, h, |h| - 1, 0, true) && CellOk(p, h, 0, Cols(h) - 1, true);
  }

  /** Nothing changes when there is nothing to add. */
  lemma AddNoCells(p: Matrix, q: Matrix, r: nat, c: nat)
    requires forall i :: 0 <= i < |q| ==> q[i] == []
    ensures AddedUpTo(p, q, r, c) == p
  {
    forall i | 0 <= i < |p| ensures AddedRow(p[i], q, i, r, c) == p[i] {
    }
  }

  /** A kernel that can be added leaves the gap between the CUDA total and the projection as it is. */
  lemma {:induction false} GapKept(totals: Totals, h: Matrix, m: map<nat, nat>, cols: nat, gap: Matrix)
    requires IsTable(h) && |m| > 0 && Rect(totals.ptx, |totals.ptx|, cols)
    requires IsSum(totals.cuda, gap, Project(totals.ptx, m, cols))
    requires Addable(totals.ptx, h, true)
    ensures var next := AddKernel(totals, h, m);
      Rect(next.ptx, |totals.ptx|, cols) && IsSum(next.cuda, gap, Project(next.ptx, m, cols))
  {
    var p, cuda := totals.ptx, Project(h, m, Cols(h));
    NothingStops(p, h, true, 0, 0);
    ProjectShape(h, m, Cols(h));
    if Cols(h) == 0 {
      AddNoCells(p, h, |h|, 0);
      var stop := StopFrom(totals.cuda, cuda, false, 0, 0);
      AddNoCells(totals.cuda, cuda, stop.0, stop.1);
    } else {
      AddableFits(p, h, cols);
      CudaAdded(totals.cuda, gap, p, h, m, cols);
    }
  }

  lemma {:induction false} CudaAdded(total: Matrix, gap: Matrix, p: Matrix, h: Matrix, m: map<nat, nat>, cols: nat)
    requires IsTable(h) && |m| > 0 && Rect(p, |p|, cols) && |h| <= |p| && Cols(h) <= cols
    requires IsSum(total, gap, Project(p, m, cols))
    ensures var cuda, ptx := Project(h, m, Cols(h)), AddedUpTo(p, h, |h|, 0);
      && StopFrom(total, cuda, false, 0, 0) == (|cuda|, 0)
      && Rect(ptx, |p|, cols)
      && IsSum(AddedUpTo(total, cuda, |cuda|, 0), gap, Project(ptx, m, cols))
  {
    var cuda, ptx, big := Project(h, m, Cols(h)), AddedUpTo(p, h, |h|, 0), Project(p, m, cols);
    ProjectShape(p, m, cols);
    ProjectShape(h, m, Cols(h));
    SumShape(total, gap, big);
    forall i, j | 0 <= i < |cuda| && 0 <= j < |cuda[i]| ensures CellOk(total, cuda, i, j, false) {
    }
    NothingStops(total, cuda, false, 0, 0);
    AddedIsSum(p, h, |h|, 0);
    ProjectIsLinear(p, Part(p, h, |h|, 0), ptx, m, cols);
    ProjectPart(p, h, m, cols, Cols(h));
    AddedIsSum(total, cuda, |cuda|, 0);
    PartByShape(total, big, cuda, |cuda|, 0);
    SumsShift(total, gap, big, Part(big, cuda, |cuda|, 0), AddedUpTo(total, cuda, |cuda|, 0), Project(ptx, m, cols));
  }

  /** A kernel that raises widens the gap by the projection of what was added before the exception. */
  lemma {:induction false} GapGrows(totals: Totals, h: Matrix, m: map<nat, nat>, cols: nat, gap: Matrix)
    returns (wider: Matrix)
    requires IsTable(h) && |m| > 0 && Rect(totals.ptx, |totals.ptx|, cols)
    requires IsSum(totals.cuda, gap, Project(totals.ptx, m, cols))
    requires !Addable(totals.ptx, h, true)
    ensures var stop, next := StopFrom(totals.ptx, h, true, 0, 0), AddKernel(totals, h, m);
      var added := Part(totals.ptx, h, stop.0, stop.1);
      && Rect(added, |totals.ptx|, cols) && Rect(next.ptx, |totals.ptx|, cols)
      && IsSum(gap, Project(added, m, cols), wider)
      && IsSum(next.cuda, wider, Project(next.ptx, m, cols))
  {
    PassesExactly(totals.ptx, h, true);
    var stop := StopFrom(totals.ptx, h, true, 0, 0);
    var added, ptx := Part(totals.ptx, h, stop.0, stop.1), AddPtx(totals.ptx, h);
    AddedIsSum(totals.ptx, h, stop.0, stop.1);
    ProjectIsLinear(totals.ptx, added, ptx, m, cols);
    var full, part := Project(totals.ptx, m, cols), Project(added, m, cols);
    SumShape(totals.cuda, gap, full);
    SumShape(full, part, Project(ptx, m, cols));
    wider := AddedUpTo(gap, part, |part|, 0);
    AddedIsSum(gap, part, |part|, 0);
    PartWhole(gap, part);
    SumsAssociate(totals.cuda, gap, full, part, wider, Project(ptx, m, cols));
  }

  ghost predicate IsZero(a: Matrix) {
    forall i, j :: 0 <= i < |a| && 0 <= j < |a[i]| ==> a[i][j] == 0
  }

  lemma ZeroSumIff(a: Matrix, b: Matrix, sum: Matrix)
    requires IsSum(a, b, sum)
    ensures a == sum <==> IsZero(b)
  {
    assert forall i :: 0 <= i < |a| ==> IsRowSum(a[i], b[i], sum[i]);
    if IsZero(b) {
      forall i | 0 <= i < |a| ensures a[i] == sum[i] {
      }
    } else {
      var i, j :| 0 <= i < |b| && 0 <= j < |b[i]| && b[i][j] != 0;
      assert sum[i][j] != a[i][j];
    }
  }

  lemma ZeroParts(a: Matrix, b: Matrix, sum: Matrix)
    requires IsSum(a, b, sum)
    ensures IsZero(sum) <==> IsZero(a) && IsZero(b)
  {
    assert forall i :: 0 <= i < |sum| ==> IsRowSum(a[i], b[i], sum[i]);
    if IsZero(sum) {
      forall i, j | 0 <= i < |a| && 0 <= j < |a[i]| ensures a[i][j] == 0 && b[i][j] == 0 {
        assert sum[i][j] == 0;
      }
    }
  }

  lemma {:induction false} SelSumZero(list: Matrix, sel: set<nat>, t: nat, n: nat)
    requires n <= |list| && forall p :: 0 <= p < n ==> t < |list[p]|
    ensures SelSum(list, sel, t, n) == 0 <==> forall p :: 0 <= p < n && p in sel ==> list[p][t] == 0
  {
    if n > 0 {
      SelSumZero(list, sel, t, n - 1);
    }
  }

  /** The cells a projection takes up: those of PTX lines mapped below the highest CUDA line. */
  ghost predicate Projects(m: map<nat, nat>, i: nat) {
    i in m && m[i] < Highest(m.Values)
  }

  lemma {:induction false} ProjectsToZero(d: Matrix, m: map<nat, nat>, cols: nat)
    requires |m| > 0 && Rect(d, |d|, cols)
    ensures IsZero(Project(d, m, cols)) <==>
      forall i, j :: 0 <= i < |d| && 0 <= j < cols && Projects(m, i) ==> d[i][j] == 0
  {
    BoundsExist(m);
    var lo, out := Lowest(m.Values), Project(d, m, cols);
    ProjectShape(d, m, cols);
    forall l, t | 0 <= l < |out| && 0 <= t < cols
      ensures out[l][t] == 0 <==> forall i :: 0 <= i < |d| && i in PtxLines(m, lo + l) ==> d[i][t] == 0
    {
      ProjectRow(d, m, cols, l);
      SelSumZero(d, PtxLines(m, lo + l), t, |d|);
    }
    if IsZero(out) {
      forall i, j | 0 <= i < |d| && 0 <= j < cols && Projects(m, i) ensures d[i][j] == 0 {
        assert m[i] in m.Values;
        assert out[m[i] - lo][j] == 0 && i in PtxLines(m, lo + (m[i] - lo));
      }
    }
  }

  /* Over a whole log */

  /** Adding `h` to the PTX total loses nothing for the CUDA total: either every cell fits, or the cells
      before the first one that does not are zero wherever a projection would take them up. */
  ghost predicate NothingLost(p: Matrix, h: Matrix, m: map<nat, nat>) {
    Addable(p, h, true) ||
    var stop := StopFrom(p, h, true, 0, 0);
    forall i, j :: 0 <= i < |h| && 0 <= j < |h[i]| && Before(i, j, stop.0, stop.1) && Projects(m, i) ==> h[i][j] == 0
  }

  lemma {:induction false} LostExactly(p: Matrix, h: Matrix, m: map<nat, nat>, cols: nat)
    requires |m| > 0 && Rect(p, |p|, cols) && !Addable(p, h, true)
    ensures var stop := StopFrom(p, h, true, 0, 0);
      var added := Part(p, h, stop.0, stop.1);
      Rect(added, |p|, cols) && (IsZero(Project(added, m, cols)) <==> NothingLost(p, h, m))
  {
    var stop := StopFrom(p, h, true, 0, 0);
    var added := Part(p, h, stop.0, stop.1);
    assert Rect(added, |p|, cols);
    ProjectsToZero(added, m, cols);
    forall i, j | 0 <= i < |h| && 0 <= j < |h[i]| && Before(i, j, stop.0, stop.1)
      ensures i < |p| && j < cols && added[i][j] == h[i][j]
    {
      StopIsFirst(p, h, true, 0, 0, i, j);
    }
  }

  /** Every kernel after the first loses nothing. */
  ghost predicate NoneLost(tables: seq<Matrix>, m: map<nat, nat>) {
    forall k :: 1 <= k < |tables| ==> NothingLost(PtxTotal(tables[..k]), tables[k], m)
  }

  lemma {:induction false} NoneLostSnoc(front: seq<Matrix>, h: Matrix, m: map<nat, nat>)
    requires |front| > 0
    ensures NoneLost(front + [h], m) <==> NoneLost(front, m) && NothingLost(PtxTotal(front), h, m)
  {
    var tables := front + [h];
    assert tables[..|front|] == front && tables[|front|] == h;
    forall k | 1 <= k < |front| ensures tables[..k] == front[..k] && tables[k] == front[k] {
    }
  }

  /** The gap after a whole log: it is zero exactly when no kernel lost anything. */
  lemma {:induction false} GapOfLog(tables: seq<Matrix>, m: map<nat, nat>) returns (gap: Matrix)
    requires |tables| > 0 && |m| > 0 && AllTables(tables)
    ensures var totals, cols := Accumulated(tables, m), Cols(tables[0]);
      && Rect(totals.ptx, |tables[0]|, cols)
      && IsSum(totals.cuda, gap, Project(totals.ptx, m, cols))
      && (IsZero(gap) <==> NoneLost(tables, m))
  {
    assert IsTable(tables[0]);
    var last, cols := |tables| - 1, Cols(tables[0]);
    if last == 0 {
      gap := NoGap(Project(tables[0], m, cols));
    } else {
      var front, h := tables[..last], tables[last];
      assert tables == front + [h] && AllTables(front) && IsTable(h);
      gap := GapOfLog(front, m);
      PtxTotalAccumulated(front, m);
      NoneLostSnoc(front, h, m);
      gap := GapStep(Accumulated(front, m), h, m, cols, gap);
    }
  }

  lemma {:induction false} NoGap(a: Matrix) returns (gap: Matrix)
    ensures IsSum(a, gap, a) && IsZero(gap)
  {
    gap := seq(|a|, i requires 0 <= i < |a| => seq(|a[i]|, j => 0));
    forall i | 0 <= i < |a| ensures IsRowSum(a[i], gap[i], a[i]) {
    }
  }

  lemma {:induction false} GapStep(totals: Totals, h: Matrix, m: map<nat, nat>, cols: nat, before: Matrix)
    returns (gap: Matrix)
    requires IsTable(h) && |m| > 0 && Rect(totals.ptx, |totals.ptx|, cols)
    requires IsSum(totals.cuda, before, Project(totals.ptx, m, cols))
    ensures var next := AddKernel(totals, h, m);
      && Rect(next.ptx, |totals.ptx|, cols)
      && IsSum(next.cuda, gap, Project(next.ptx, m, cols))
      && (IsZero(gap) <==> IsZero(before) && NothingLost(totals.ptx, h, m))
  {
    if Addable(totals.ptx, h, true) {
      GapKept(totals, h, m, cols, before);
      gap := before;
    } else {
      gap := GapGrows(totals, h, m, cols, before);
      LostExactly(totals.ptx, h, m, cols);
      var stop := StopFrom(totals.ptx, h, true, 0, 0);
      ZeroParts(before, Project(Part(totals.ptx, h, stop.0, stop.1), m, cols), gap);
    }
  }

  /** For every log: the accumulated CUDA table is the projection of the accumulated PTX table exactly when
      each later kernel either fits into the PTX total cell by cell, or has only zeros, in the rows mapped
      below the highest CUDA line, before its first cell that does not fit. */
  lemma {:induction false} TotalsAgreeExactly(tables: seq<Matrix>, m: map<nat, nat>)
    requires |tables| > 0 && |m| > 0 && AllTables(tables)
    ensures var totals, cols := Accumulated(tables, m), Cols(tables[0]);
      && totals.ptx == PtxTotal(tables) && Rect(totals.ptx, |tables[0]|, cols)
      && (totals.cuda == Project(totals.ptx, m, cols) <==> NoneLost(tables, m))
  {
    var gap := GapOfLog(tables, m);
    PtxTotalAccumulated(tables, m);
    var totals := Accumulated(tables, m);
    ZeroSumIff(totals.cuda, gap, Project(totals.ptx, m, Cols(tables[0])));
  }

  /** What all kernels logged at a cell. */
  function TotalCell(tables: seq<Matrix>, i: nat, j: nat): nat {
    if tables == [] then 0 else TotalCell(tables[..|tables| - 1], i, j) + CellOf(tables[|tables| - 1], i, j)
  }

  /** No kernel has a larger table than the first, and no total leaves 32 bits. */
  ghost predicate FirstIsLargest(tables: seq<Matrix>)
    requires |tables| > 0
  {
    && (forall k :: 0 <= k < |tables| ==> |tables[k]| <= |tables[0]| && Cols(tables[k]) <= Cols(tables[0]))
    && (forall i: nat, j: nat :: TotalCell(tables, i, j) < TWO_TO_32)
  }

  /** The PTX total holds the cell totals, and every kernel could be added. */
  lemma {:induction false} TotalsFit(tables: seq<Matrix>, m: map<nat, nat>)
    requires |tables| > 0 && AllTables(tables) && FirstIsLargest(tables)
    ensures var p, cols := PtxTotal(tables), Cols(tables[0]);
      && Rect(p, |tables[0]|, cols)
      && (forall i, j :: 0 <= i < |tables[0]| && 0 <= j < cols ==> p[i][j] == TotalCell(tables, i, j))
      && NoneLost(tables, m)
  {
    assert IsTable(tables[0]);
    var last := |tables| - 1;
    assert forall i: nat, j: nat ::
      TotalCell(tables, i, j) == TotalCell(tables[..last], i, j) + CellOf(tables[last], i, j);
    if last > 0 {
      var front, h := tables[..last], tables[last];
      assert tables == front + [h] && AllTables(front) && IsTable(h);
      TotalsFit(front, m);
      var p := PtxTotal(front);
      forall i, j | 0 <= i < |h| && 0 <= j < |h[i]| ensures CellOk(p, h, i, j, true) {
        assert TotalCell(tables, i, j) < TWO_TO_32;
      }
      NothingStops(p, h, true, 0, 0);
      NoneLostSnoc(front, h, m);
    }
  }

  /** Aggregating each kernel and adding up is adding up and aggregating: the accumulated CUDA table is
      the projection of the accumulated PTX table, which holds the cell totals. */
  lemma {:induction false} TotalsCommute(tables: seq<Matrix>, m: map<nat, nat>)
    requires |tables| > 0 && |m| > 0 && AllTables(tables) && FirstIsLargest(tables)
    ensures var totals, cols := Accumulated(tables, m), Cols(tables[0]);
      && Rect(totals.ptx, |tables[0]|, cols)
      && (forall i, j :: 0 <= i < |tables[0]| && 0 <= j < cols ==> totals.ptx[i][j] == TotalCell(tables, i, j))
      && totals.cuda == Project(totals.ptx, m, cols)
  {
    TotalsFit(tables, m);
    TotalsAgreeExactly(tables, m);
  }

  /** In particular for kernels of one shape. */
  lemma {:induction false} EqualShapesCommute(tables: seq<Matrix>, m: map<nat, nat>, rows: nat, cols: nat)
    requires |tables| > 0 && |m| > 0 && rows > 0
    requires forall k :: 0 <= k < |tables| ==> Rect(tables[k], rows, cols)
    requires forall i: nat, j: nat :: TotalCell(tables, i, j) < TWO_TO_32
    ensures AllTables(tables)
    ensures var totals := Accumulated(tables, m);
      Rect(totals.ptx, rows, cols) && totals.cuda == Project(totals.ptx, m, cols)
  {
    forall k | 0 <= k < |tables| ensures IsTable(tables[k]) && Cols(tables[k]) == cols {
      assert Rect(tables[k], rows, cols);
    }
    TotalsCommute(tables, m);
  }

  /** A later kernel with more cycles than the first breaks it: its first cycle is added to the PTX total,
      the second raises, and the CUDA total never sees the kernel. */
  lemma {:induction false} LongerKernelDiverges()
    ensures var tables, m: map<nat, nat> := [[[1], [0]], [[1, 1], [0, 0]]], map[0 := 0, 1 := 1];
      && AllTables(tables) && |m| > 0
      && Accumulated(tables, m).ptx == [[2], [0]]
      && Accumulated(tables, m).cuda == [[1]]
      && Project(Accumulated(tables, m).ptx, m, 1) == [[2]]
  {
    var first: Matrix, h: Matrix := [[1], [0]], [[1, 1], [0, 0]];
    var m: map<nat, nat> := map[0 := 0, 1 := 1];
    assert [first, h][..1] == [first];
    assert StopFrom(first, h, true, 0, 0) == StopFrom(first, h, true, 0, 1) == (0, 1);
    assert AddedUpTo(first, h, 0, 1) == [[2], [0]] by {
      assert AddedRow(first[0], h, 0, 0, 1) == [2];
      assert AddedRow(first[1], h, 1, 0, 1) == [0];
    }
    ProjectFirst(first, m, 1);
    ProjectFirst([[2], [0]], m, 2);
  }

  lemma {:induction false} ProjectFirst(list: Matrix, m: map<nat, nat>, v: nat)
    requires list == [[v], [0]] && m == map[0 := 0, 1 := 1]
    ensures Project(list, m, 1) == [[v]]
  {
    BoundsExist(m);
    assert m.Values == {0, 1} by {
      assert m[0] in m.Values && m[1] in m.Values;
    }
    assert PtxLines(m, 0) == {0};
    assert SelSum(list, {0}, 0, 2) == SelSum(list, {0}, 0, 1) == SelSum(list, {0}, 0, 0) + v;
    ProjectRow(list, m, 1, 0);
    assert LineRow(list, {0}, 1) == [v];
  }
}
