/** Where each value of a log ends up in the organized tables, read off the positions of the stream
    (aerialvision/organizedata.py). */
module StreamCells {
  import opened Results
  import opened Sums
  import opened Sequences
  import opened LogStreams
  import opened DramLogs

  /** Token `p` is a value, the `u`-th one counted from 0 since the last NULL or the start. */
  ghost predicate RunIndex(s: seq<Token>, p: nat, u: nat) {
    && u <= p < |s| && s[p].Val?
    && (forall k :: p - u <= k < p ==> s[k].Val?)
    && (p == u || s[p - u - 1].Null?)
  }

  function Nulls(s: seq<Token>): nat {
    if s == [] then 0 else Nulls(s[..|s| - 1]) + (if s[|s| - 1].Null? then 1 else 0)
  }

  /** Token `p` is value `u` of its group, and `g` NULLs come before it. */
  ghost predicate IsCell(s: seq<Token>, p: nat, g: nat, u: nat) {
    RunIndex(s, p, u) && g == Nulls(s[..p])
  }

  /** The tokens from `start` on are these values. */
  ghost predicate ValuesFrom(s: seq<Token>, start: nat, values: seq<nat>) {
    && start + |values| <= |s|
    && forall k :: start <= k < start + |values| ==> s[k] == Val(values[k - start])
  }

  /** A run of values up to the end is open. */
  lemma {:induction false} OpenRun(s: seq<Token>)
    ensures var n := |Open(s)|;
      n <= |s| && (n == |s| || s[|s| - n - 1].Null?) && ValuesFrom(s, |s| - n, Open(s))
  {
    if s != [] && s[|s| - 1].Val? {
      var front, x := s[..|s| - 1], s[|s| - 1];
      OpenRun(front);
      assert s == front + [x];
      var start := |front| - |Open(front)|;
      forall k | start <= k < |s| ensures s[k] == Val(Open(s)[k - start]) {
        assert k < |front| ==> s[k] == front[k];
      }
    }
  }

  lemma {:induction false} OpenIsIndex(s: seq<Token>, p: nat)
    requires p < |s| && s[p].Val?
    ensures RunIndex(s, p, |Open(s[..p])|)
  {
    var front, n := s[..p], |Open(s[..p])|;
    OpenRun(front);
    forall k | p - n <= k < p ensures s[k].Val? {
      assert s[k] == front[k];
    }
  }

  lemma {:induction false} IndexUnique(s: seq<Token>, p: nat, u: nat, w: nat)
    requires RunIndex(s, p, u) && RunIndex(s, p, w)
    ensures u == w
  {
  }

  lemma {:induction false} RunIndexIsOpen(s: seq<Token>, p: nat, u: nat)
    requires p < |s| && s[p].Val?
    ensures RunIndex(s, p, u) <==> u == |Open(s[..p])|
  {
    OpenIsIndex(s, p);
    if RunIndex(s, p, u) {
      IndexUnique(s, p, u, |Open(s[..p])|);
    }
  }

  lemma {:induction false} ClosedCount(s: seq<Token>)
    ensures |Closed(s)| == Nulls(s)
  {
    if s != [] {
      ClosedCount(s[..|s| - 1]);
    }
  }

  /** Value `u` of group `g` is the token that has this place. */
  lemma {:induction false} TokenInGroup(s: seq<Token>, p: nat, g: nat, u: nat)
    requires IsCell(s, p, g, u)
    ensures g < |Groups(s)| && u < |Groups(s)[g]| && Groups(s)[g][u] == s[p].v
  {
    RunIndexIsOpen(s, p, u);
    ClosedCount(s[..p]);
    Snoc(s, p);
    StaysInGroup(s, p + 1, g, u, s[p].v);
  }

  /** What is in a group, open or closed, stays there. */
  lemma {:induction false} StaysInGroup(s: seq<Token>, x: nat, g: nat, u: nat, v: nat)
    requires x <= |s| && |Closed(s[..x])| == g && u < |Open(s[..x])| && Open(s[..x])[u] == v
    ensures g < |Groups(s)| && u < |Groups(s)[g]| && Groups(s)[g][u] == v
    decreases |s| - x
  {
    if x == |s| {
      assert s[..x] == s;
    } else {
      Snoc(s, x);
      if s[x].Null? {
        ClosedGrows(s, x + 1);
        assert Closed(s[..x + 1])[g] == Closed(s)[g];
      } else {
        StaysInGroup(s, x + 1, g, u, v);
      }
    }
  }

  /** All but the last value of an open group was there before. */
  lemma {:induction false} GroupBefore(s: seq<Token>, t: Token, g: nat, u: nat)
    requires g < |Groups(s + [t])| && u < |Groups(s + [t])[g]|
    requires !(t.Val? && g == |Closed(s)| && u == |Open(s)|)
    ensures g < |Groups(s)| && u < |Groups(s)[g]|
  {
    assert (s + [t])[..|s|] == s;
    assert Groups(s + [t]) == Closed(s) + [if t.Null? then Open(s) else Open(s) + [t.v]];
  }

  lemma {:induction false} CellLater(s: seq<Token>, t: Token, p: nat, g: nat, u: nat)
    requires IsCell(s, p, g, u)
    ensures IsCell(s + [t], p, g, u)
  {
    assert (s + [t])[..p] == s[..p];
    assert forall k :: 0 <= k < |s| ==> (s + [t])[k] == s[k];
  }

  /** Every value of a group is a token at that place. */
  lemma {:induction false} GroupHasToken(s: seq<Token>, g: nat, u: nat) returns (p: nat)
    requires g < |Groups(s)| && u < |Groups(s)[g]|
    ensures IsCell(s, p, g, u)
  {
    var n := |s| - 1;
    var front, t := s[..n], s[n];
    assert s == front + [t];
    if t.Val? && g == |Closed(front)| && u == |Open(front)| {
      p := n;
      RunIndexIsOpen(s, p, u);
      ClosedCount(front);
    } else {
      GroupBefore(front, t, g, u);
      p := GroupHasToken(front, g, u);
      CellLater(front, t, p, g, u);
    }
  }

  /** There is a group per NULL, and one more if the stream ends with a value. */
  lemma {:induction false} GroupCount(s: seq<Token>)
    ensures |Groups(s)| == Nulls(s) + if s != [] && s[|s| - 1].Val? then 1 else 0
  {
    ClosedCount(s);
  }

  /* The shader table */

  /** Row `u` holds, after a zero, the `u`-th value of every group, and zero where a group is shorter. */
  ghost predicate CellsOf(s: seq<Token>, table: seq<seq<nat>>) {
    && (forall u: nat :: u < |table| ==>
          |table[u]| == 1 + Nulls(s) + (if s != [] && s[|s| - 1].Val? then 1 else 0) && table[u][0] == 0)
    && (forall p: nat, g: nat, u: nat :: IsCell(s, p, g, u) && u < |table| ==>
          g + 1 < |table[u]| && table[u][g + 1] == s[p].v)
    && (forall g: nat, u: nat :: u < |table| && g + 1 < |table[u]| && NoCell(s, g, u) ==> table[u][g + 1] == 0)
  }

  ghost predicate NoCell(s: seq<Token>, g: nat, u: nat) {
    forall p: nat :: !IsCell(s, p, g, u)
  }

  lemma {:induction false} TransposedCells(s: seq<Token>, units: nat)
    ensures CellsOf(s, Transposed(Groups(s), units))
  {
    var table := Transposed(Groups(s), units);
    GroupCount(s);
    forall p: nat, g: nat, u: nat | IsCell(s, p, g, u) && u < units
      ensures g + 1 < |table[u]| && table[u][g + 1] == s[p].v
    {
      TokenInGroup(s, p, g, u);
    }
    forall g: nat, u: nat | u < units && g + 1 < |table[u]| && NoCell(s, g, u) ensures table[u][g + 1] == 0 {
      if u < |Groups(s)[g]| {
        var p := GroupHasToken(s, g, u);
      }
    }
  }

  /** The plotted units: as many as there are values in the run that holds the last value. */
  ghost predicate IsUnits(s: seq<Token>, units: nat) {
    if units == 0 then forall p :: 0 <= p < |s| ==> s[p].Null?
    else exists p: nat :: RunIndex(s, p, units - 1) && NoValueAfter(s, p)
  }

  ghost predicate NoValueAfter(s: seq<Token>, p: nat) {
    forall k :: p < k < |s| ==> s[k].Null?
  }

  lemma {:induction false} UnitsStep(s: seq<Token>, t: Token)
    ensures LastSize(Groups(s + [t])) == if t.Val? then |Open(s)| + 1 else LastSize(Groups(s))
  {
    assert (s + [t])[..|s|] == s;
    LastSizeSnoc(Closed(s), Open(s));
    LastSizeSnoc(Closed(s), Open(s + [t]));
  }

  lemma {:induction false} UnitsAreLastRun(s: seq<Token>)
    ensures IsUnits(s, LastSize(Groups(s)))
  {
    if s != [] {
      var front, t := s[..|s| - 1], s[|s| - 1];
      assert s == front + [t];
      UnitsStep(front, t);
      if t.Val? {
        RunIndexIsOpen(s, |front|, |Open(front)|);
        assert NoValueAfter(s, |front|);
      } else {
        UnitsAreLastRun(front);
        UnitsAfterNull(front, LastSize(Groups(front)));
      }
    }
  }

  lemma {:induction false} UnitsAfterNull(s: seq<Token>, units: nat)
    requires IsUnits(s, units)
    ensures IsUnits(s + [Null], units)
  {
    var all := s + [Null];
    assert forall k :: 0 <= k < |s| ==> all[k] == s[k];
    if units > 0 {
      var p: nat :| RunIndex(s, p, units - 1) && NoValueAfter(s, p);
      assert RunIndex(all, p, units - 1) && NoValueAfter(all, p);
    }
  }

  /** No value has a place past the plotted units. */
  ghost predicate NoneBeyond(s: seq<Token>, units: nat) {
    forall p: nat, u: nat :: RunIndex(s, p, u) ==> u < units
  }

  lemma {:induction false} GroupsWithin(s: seq<Token>, units: nat)
    ensures (forall g :: g in Groups(s) ==> |g| <= units) <==> NoneBeyond(s, units)
  {
    if NoneBeyond(s, units) {
      forall g | g in Groups(s) ensures |g| <= units {
        var k :| 0 <= k < |Groups(s)| && Groups(s)[k] == g;
        if |g| > units {
          var p := GroupHasToken(s, k, units);
        }
      }
    }
    if forall g :: g in Groups(s) ==> |g| <= units {
      forall p: nat, u: nat | RunIndex(s, p, u) ensures u < units {
        var g := Nulls(s[..p]);
        assert IsCell(s, p, g, u);
        TokenInGroup(s, p, g, u);
        assert Groups(s)[g] in Groups(s);
      }
    }
  }

  /** The shader table is made exactly when every value fits a cell and no run is longer than the last one that
      has values; it has a row per value of that run, and each value of the stream at its place. */
  lemma {:induction false} ShaderTable(s: seq<Token>)
    ensures var units := LastSize(Groups(s));
      && IsUnits(s, units)
      && CellsOf(s, Transposed(Groups(s), units))
      && (Fits(s) <==> NoneBeyond(s, units) && forall p :: 0 <= p < |s| && s[p].Val? ==> s[p].v < TWO_TO_32)
  {
    UnitsAreLastRun(s);
    TransposedCells(s, LastSize(Groups(s)));
    GroupsWithin(s, LastSize(Groups(s)));
  }

  /* Binned rows */

  /** A row of more than 512 samples is cut into 512 slices of the least width that covers it with room to
      spare; bin `b` is the average of slice `b`, and the row is accepted exactly when the sum of every slice
      fits a cell. */
  lemma {:induction false} BinnedExactly(row: seq<nat>)
    ensures var n := BinWidth(|row|);
      && |row| < 512 * n && (n - 1) * 512 <= |row|
      && |Binned(row, n)| == 512
      && forall b: nat :: b < 512 ==> SliceIs(row, n, b, Binned(row, n)[b])
    ensures RowFits(row, BinWidth(|row|)) <==> forall b: nat :: b < 512 ==> SliceFits(row, BinWidth(|row|), b)
  {
    var n := BinWidth(|row|);
    var sums := BinSums(row, BinIndices(|row|, n));
    forall b: nat | b < 512 ensures SliceIs(row, n, b, Binned(row, n)[b])
      ensures SliceFits(row, n, b) <==> FitsCell(sums[b])
    {
      BinIsSlice(row, b);
    }
  }

  ghost predicate SliceIs(row: seq<nat>, n: nat, b: nat, average: nat)
    requires n > 0
  {
    0 <= b * n <= (b + 1) * n && average == Sum(Cut(row, b * n, (b + 1) * n)) / n
  }

  ghost predicate SliceFits(row: seq<nat>, n: nat, b: nat) {
    0 <= b * n <= (b + 1) * n && Sum(Cut(row, b * n, (b + 1) * n)) < TWO_TO_32
  }

  /* Logged records */

  /** The record made of the value at `p`, the `u`-th of its run, and the first `h` values of the run. */
  ghost predicate RecordOf(s: seq<Token>, h: nat, p: nat, r: Record) {
    && p < |s| && s[p].Val? && r.value == s[p].v && |r.header| == h
    && exists u: nat :: RunIndex(s, p, u) && h <= u && ValuesFrom(s, p - u, r.header)
  }

  /** The value at `p` has `h` values before it in its run. */
  ghost predicate PastHeader(s: seq<Token>, h: nat, p: nat) {
    exists u: nat :: RunIndex(s, p, u) && h <= u
  }

  lemma {:induction false} RecordHere(s: seq<Token>, h: nat, p: nat)
    requires p < |s| && s[p].Val?
    ensures PastHeader(s, h, p) <==> h <= |Open(s[..p])|
    ensures h <= |Open(s[..p])| ==> RecordOf(s, h, p, Record(Open(s[..p])[..h], s[p].v))
  {
    var u := |Open(s[..p])|;
    forall w: nat ensures RunIndex(s, p, w) <==> w == u {
      RunIndexIsOpen(s, p, w);
    }
    OpenRun(s[..p]);
    assert RunIndex(s, p, u);
    if h <= u {
      forall k | p - u <= k < p - u + h ensures s[k] == Val(Open(s[..p])[..h][k - (p - u)]) {
        assert s[k] == s[..p][k];
      }
      assert ValuesFrom(s, p - u, Open(s[..p])[..h]);
    }
  }

  lemma {:induction false} RecordLater(s: seq<Token>, t: Token, h: nat, p: nat, r: Record)
    requires p < |s|
    ensures RecordOf(s, h, p, r) ==> RecordOf(s + [t], h, p, r)
    ensures PastHeader(s, h, p) <==> PastHeader(s + [t], h, p)
  {
    var all := s + [t];
    assert forall k :: 0 <= k < |s| ==> all[k] == s[k];
    forall u: nat ensures RunIndex(s, p, u) <==> RunIndex(all, p, u) {
    }
    if RecordOf(s, h, p, r) {
      var u: nat :| RunIndex(s, p, u) && h <= u && ValuesFrom(s, p - u, r.header);
      assert RunIndex(all, p, u) && ValuesFrom(all, p - u, r.header);
    }
  }

  /** `at` lists, in order, the positions whose values make the records. */
  ghost predicate RecordsAt(s: seq<Token>, h: nat, at: seq<nat>, records: seq<Record>) {
    && |at| == |records| && Increasing(at)
    && (forall i :: 0 <= i < |at| ==> RecordOf(s, h, at[i], records[i]))
  }

  lemma {:induction false} MoreRecords(
    s: seq<Token>, t: Token, h: nat, was: seq<nat>, records: seq<Record>, more: seq<Record>) returns (at: seq<nat>)
    requires RecordsAt(s, h, was, records)
    requires |more| <= 1 && (more != [] ==> RecordOf(s + [t], h, |s|, more[0]))
    ensures RecordsAt(s + [t], h, at, records + more)
    ensures forall p: nat :: p in at <==> p in was || (more != [] && p == |s|)
  {
    forall i | 0 <= i < |was| ensures was[i] < |s| && RecordOf(s + [t], h, was[i], records[i]) {
      assert RecordOf(s, h, was[i], records[i]);
      RecordLater(s, t, h, was[i], records[i]);
    }
    at := NextPosition(was, |s|, more != []);
  }

  /** The records of a log are, in order, the values with `h` values before them in their run, each with the
      first `h` values of the run as header. */
  lemma {:induction false} LoggedAt(s: seq<Token>, h: nat) returns (at: seq<nat>)
    ensures RecordsAt(s, h, at, Logged(s, h))
    ensures forall p: nat :: p in at <==> p < |s| && PastHeader(s, h, p)
  {
    at := [];
    if s != [] {
      var n := |s| - 1;
      var front, t := s[..n], s[n];
      assert s == front + [t];
      var was := LoggedAt(front, h);
      var more := if t.Val? && |Open(front)| >= h then [Record(Open(front)[..h], t.v)] else [];
      if t.Val? {
        RecordHere(s, h, n);
      }
      assert Logged(s, h) == Logged(front, h) + more;
      at := MoreRecords(front, t, h, was, Logged(front, h), more);
      forall p: nat ensures p in at <==> p < |s| && PastHeader(s, h, p) {
        if p < n {
          RecordLater(front, t, h, p, Record([], 0));
        }
      }
    }
  }

  /** Position `i` of the records is one under the header. */
  lemma {:induction false} SeriesAt(records: seq<Record>, header: seq<nat>) returns (at: seq<nat>)
    ensures |at| == |Series(records, header)| && Increasing(at)
    ensures forall k :: 0 <= k < |at| ==> at[k] < |records| && Series(records, header)[k] == records[at[k]].value
    ensures forall i: nat :: i in at <==> i < |records| && records[i].header == header
  {
    at := [];
    if records != [] {
      var n := |records| - 1;
      var front := records[..n];
      var was := SeriesAt(front, header);
      at := NextPosition(was, n, records[n].header == header);
      forall i: nat ensures i in at <==> i < |records| && records[i].header == header {
        assert i < n ==> front[i] == records[i];
      }
    }
  }

  /** The value at `p` comes in a run that opens with the header. */
  ghost predicate UnderHeader(s: seq<Token>, header: seq<nat>, p: nat) {
    exists u: nat :: RunIndex(s, p, u) && |header| <= u && ValuesFrom(s, p - u, header)
  }

  lemma {:induction false} SameHeader(s: seq<Token>, p: nat, header: seq<nat>, r: Record)
    requires RecordOf(s, |header|, p, r)
    ensures UnderHeader(s, header, p) <==> r.header == header
  {
    var u: nat :| RunIndex(s, p, u) && |header| <= u && ValuesFrom(s, p - u, r.header);
    if UnderHeader(s, header, p) {
      var w: nat :| RunIndex(s, p, w) && |header| <= w && ValuesFrom(s, p - w, header);
      IndexUnique(s, p, u, w);
      forall i | 0 <= i < |header| ensures r.header[i] == header[i] {
        assert s[p - u + i] == Val(r.header[p - u + i - (p - u)]);
        assert s[p - u + i] == Val(header[p - u + i - (p - u)]);
      }
    }
  }

  lemma {:induction false} IncreasingSteps(at: seq<nat>, steps: seq<nat>)
    requires Increasing(at) && Increasing(steps) && forall k :: 0 <= k < |steps| ==> steps[k] < |at|
    ensures Increasing(seq(|steps|, k requires 0 <= k < |steps| => at[steps[k]]))
  {
  }

  /** What is filed under a header is, in log order, every value of the runs that open with that header, the
      header itself excepted. */
  lemma {:induction false} FiledAt(s: seq<Token>, header: seq<nat>) returns (at: seq<nat>)
    ensures var filed := Series(Logged(s, |header|), header);
      |at| == |filed| && forall k :: 0 <= k < |at| ==> at[k] < |s| && s[at[k]] == Val(filed[k])
    ensures Increasing(at) && forall p: nat :: p in at <==> p < |s| && UnderHeader(s, header, p)
  {
    var records, h := Logged(s, |header|), |header|;
    var logged := LoggedAt(s, h);
    var steps := SeriesAt(records, header);
    at := seq(|steps|, k requires 0 <= k < |steps| => logged[steps[k]]);
    IncreasingSteps(logged, steps);
    forall k | 0 <= k < |at| ensures at[k] < |s| && UnderHeader(s, header, at[k]) {
      assert RecordOf(s, h, logged[steps[k]], records[steps[k]]);
      assert steps[k] in steps;
      SameHeader(s, at[k], header, records[steps[k]]);
    }
    forall p: nat | p < |s| && UnderHeader(s, header, p) ensures p in at {
      assert PastHeader(s, h, p);
      var i :| 0 <= i < |logged| && logged[i] == p;
      SameHeader(s, p, header, records[i]);
      assert i in steps;
      var k :| 0 <= k < |steps| && steps[k] == i;
      assert at[k] == p;
    }
  }

  /* The condition on partition numbers */

  /** There is one row, or one for every number up to the largest partition. */
  lemma {:induction false} RowCountIs(records: seq<Record>)
    requires OneNumber(records)
    ensures RowCount(records) == 1 || exists i :: 0 <= i < |records| && records[i].header[0] + 1 == RowCount(records)
    ensures RowCount(records) >= 1 && forall i :: 0 <= i < |records| ==> records[i].header[0] < RowCount(records)
  {
    if records != [] {
      var front, n := records[..|records| - 1], |records| - 1;
      RowCountIs(front);
      forall i | 0 <= i < n ensures records[i] == front[i] && records[i].header[0] < RowCount(front) {
      }
      if RowCount(records) != 1 && records[n].header[0] < RowCount(front) {
        var i :| 0 <= i < n && front[i].header[0] + 1 == RowCount(front);
        assert records[i] == front[i];
      }
    }
  }

  /** The rows up to this record's own exist, or it starts the next one. */
  ghost predicate FollowsOn(records: seq<Record>, i: nat)
    requires OneNumber(records) && i < |records|
  {
    records[i].header[0] <= 1 || exists j :: 0 <= j < i && records[i].header[0] <= records[j].header[0] + 1
  }

  /** A log can be filed exactly when each partition number is at most one above an earlier one, or 1. */
  lemma {:induction false} NoGapsExactly(records: seq<Record>)
    requires OneNumber(records)
    ensures NoGaps(records) <==> forall i: nat :: i < |records| ==> FollowsOn(records, i)
    ensures RecordsFit(records) <==> forall i :: 0 <= i < |records| ==> records[i].value < TWO_TO_32
  {
    if records != [] {
      var n := |records| - 1;
      var front := records[..n];
      NoGapsExactly(front);
      forall i: nat | i < n ensures FollowsOn(records, i) <==> FollowsOn(front, i) {
        FollowsBefore(records, n, i);
      }
      LastFollows(records);
      assert records == front + [records[n]];
    }
  }

  lemma {:induction false} FollowsBefore(records: seq<Record>, n: nat, i: nat)
    requires OneNumber(records) && i < n <= |records|
    ensures OneNumber(records[..n])
    ensures FollowsOn(records, i) <==> FollowsOn(records[..n], i)
  {
    forall j | 0 <= j < n ensures records[j] == records[..n][j] {
    }
  }

  lemma {:induction false} LastFollows(records: seq<Record>)
    requires records != [] && OneNumber(records)
    ensures OneNumber(records[..|records| - 1])
    ensures FollowsOn(records, |records| - 1) <==>
      records[|records| - 1].header[0] <= RowCount(records[..|records| - 1])
  {
    var n := |records| - 1;
    var front, m := records[..n], records[n].header[0];
    RowCountIs(front);
    forall j | 0 <= j < n ensures records[j] == front[j] {
    }
    if 1 < m <= RowCount(front) {
      var j :| 0 <= j < n && front[j].header[0] + 1 == RowCount(front);
      assert m <= records[j].header[0] + 1;
    }
    if m > 1 && FollowsOn(records, n) {
      var j :| 0 <= j < n && m <= records[j].header[0] + 1;
      assert front[j].header[0] < RowCount(front);
    }
  }
}
