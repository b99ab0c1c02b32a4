/** From .loc directives to CUDA rows: the scan, its inversion and the projection taken together
    (aerialvision/lexyacctexteditor.py, aerialvision/organizedata.py). */
module CflogPipeline {
  import opened LineMaps
  import opened Cflog

  /** The PTX lines up to `maxStats` whose last directive before them names CUDA line `l`. */
  function LinesUnder(lines: Lines, maxStats: nat, l: nat): set<nat> {
    set p | 0 <= p < |lines| && p <= maxStats && LocBefore(lines, p) == l
  }

  /** Row by row, the CUDA histogram is the column-wise sum of the PTX rows the directives put on that
      CUDA line, however the dictionaries in between were traversed. */
  lemma {:induction false} CudaRowsFollowDirectives(
    lines: Lines, maxStats: nat, m: map<nat, seq<nat>>, newMap: map<nat, nat>, list: Matrix, cols: nat, i: nat)
    requires IsScan(lines, |lines|, m) && Inverts(m, maxStats, newMap) && |newMap| > 0
    requires Rect(list, |list|, cols) && i < |Project(list, newMap, cols)|
    ensures Project(list, newMap, cols)[i] ==
      LineRow(list, LinesUnder(lines, maxStats, Lowest(newMap.Values) + i), cols)
  {
    InversionLossless(lines, m, maxStats, newMap);
    ProjectRow(list, newMap, cols, i);
    assert PtxLines(newMap, Lowest(newMap.Values) + i) == LinesUnder(lines, maxStats, Lowest(newMap.Values) + i);
  }
}
