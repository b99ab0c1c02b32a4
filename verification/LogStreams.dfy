/** aerialvision/organizedata.py: turning flat NULL-delimited streams of a log into tables. */
module LogStreams {
  import opened Results
  import opened Sums
  import opened Arithmetic

  datatype Token = Null | Val(v: nat)

  datatype LogError = IndexError | OverflowError

  /** An `array('I')` cell holds 32 bits. */
  predicate FitsCell(v: nat) {
    v < TWO_TO_32
  }

  ghost predicate CellsFit(s: seq<Token>) {
    forall i :: 0 <= i < |s| && s[i].Val? ==> FitsCell(s[i].v)
  }

  /* Groups: what lies between the NULLs */

  /** The values since the last NULL. */
  function Open(s: seq<Token>): seq<nat> {
    if s == [] || s[|s| - 1].Null? then [] else Open(s[..|s| - 1]) + [s[|s| - 1].v]
  }

  /** The groups a NULL has ended. */
  function Closed(s: seq<Token>): seq<seq<nat>> {
    if s == [] then []
    else if s[|s| - 1].Null? then Closed(s[..|s| - 1]) + [Open(s[..|s| - 1])]
    else Closed(s[..|s| - 1])
  }

  function Groups(s: seq<Token>): seq<seq<nat>> {
    if Open(s) == [] then Closed(s) else Closed(s) + [Open(s)]
  }

  /** The size of the last non-empty group. */
  function LastSize(groups: seq<seq<nat>>): nat {
    if groups == [] then 0
    else if groups[|groups| - 1] != [] then |groups[|groups| - 1]|
    else LastSize(groups[..|groups| - 1])
  }

  function TokenSum(s: seq<Token>): nat {
    if s == [] then 0
    else TokenSum(s[..|s| - 1]) + (if s[|s| - 1].Val? then s[|s| - 1].v else 0)
  }

  lemma Snoc(s: seq<Token>, x: nat)
    requires x < |s|
    ensures s[..x + 1][..x] == s[..x]
    ensures Open(s[..x + 1]) == if s[x].Null? then [] else Open(s[..x]) + [s[x].v]
    ensures Closed(s[..x + 1]) == if s[x].Null? then Closed(s[..x]) + [Open(s[..x])] else Closed(s[..x])
    ensures TokenSum(s[..x + 1]) == TokenSum(s[..x]) + (if s[x].Val? then s[x].v else 0)
  {
    assert s[..x + 1][..x] == s[..x];
  }

  lemma LastSizeSnoc(groups: seq<seq<nat>>, g: seq<nat>)
    ensures LastSize(groups + [g]) == if g != [] then |g| else LastSize(groups)
  {
    assert (groups + [g])[..|groups|] == groups;
  }

  lemma {:induction false} ClosedGrows(s: seq<Token>, x: nat)
    requires x <= |s|
    ensures Closed(s[..x]) <= Closed(s)
    decreases |s| - x
  {
    if x < |s| {
      Snoc(s, x);
      assert Closed(s[..x]) <= Closed(s[..x + 1]);
      ClosedGrows(s, x + 1);
    } else {
      assert s[..x] == s;
    }
  }

  /** An open run ends up inside some group. */
  lemma {:induction false} OpenInGroup(s: seq<Token>, x: nat)
    requires x <= |s| && Open(s[..x]) != []
    ensures exists g :: g in Groups(s) && |g| >= |Open(s[..x])|
    decreases |s| - x
  {
    if x == |s| {
      assert s[..x] == s;
      assert Open(s) in Groups(s);
    } else {
      Snoc(s, x);
      if s[x].Null? {
        ClosedGrows(s, x + 1);
        assert Open(s[..x]) == Closed(s[..x + 1])[|Closed(s[..x])|];
        assert Open(s[..x]) in Groups(s);
      } else {
        OpenInGroup(s, x + 1);
      }
    }
  }

  /* One row per unit */

  function Cell(group: seq<nat>, u: nat): nat {
    if u < |group| then group[u] else 0
  }

  /** What unit `u` logged in each group, zero where the group stops short of it. */
  function Column(groups: seq<seq<nat>>, u: nat): (c: seq<nat>)
    ensures |c| == |groups|
  {
    seq(|groups|, g requires 0 <= g < |groups| => Cell(groups[g], u))
  }

  function Transposed(groups: seq<seq<nat>>, units: nat): (m: seq<seq<nat>>)
    ensures |m| == units
  {
    seq(units, u requires 0 <= u < units => [0] + Column(groups, u))
  }

  /** Row `u` while a group is still open. */
  function PartialRow(closed: seq<seq<nat>>, open: seq<nat>, u: nat): seq<nat> {
    [0] + Column(closed, u) + (if u < |open| then [open[u]] else [])
  }

  lemma ColumnSnoc(groups: seq<seq<nat>>, g: seq<nat>, u: nat)
    ensures Column(groups + [g], u) == Column(groups, u) + [Cell(g, u)]
  {
  }

  /** The number of plotted units: the length of the last run of values. */
  method CountPlots(nullVar: seq<Token>) returns (count: nat)
    ensures count == LastSize(Groups(nullVar))
  {
    count := 0;
    var i := |nullVar|;
    assert nullVar[..i] == nullVar;
    while i > 0
      invariant 0 <= i <= |nullVar|
      invariant LastSize(Groups(nullVar)) ==
        if count == 0 then LastSize(Groups(nullVar[..i])) else count + |Open(nullVar[..i])|
    {
      Snoc(nullVar, i - 1);
      LastSizeSnoc(Closed(nullVar[..i - 1]), Open(nullVar[..i - 1]));
      LastSizeSnoc(Closed(nullVar[..i]), Open(nullVar[..i]));
      if nullVar[i - 1].Val? {
        count := count + 1;
      } else if count != 0 {
        break;
      }
      i := i - 1;
    }
  }

  /** Ends a group: every unit from `count` on gets a zero. */
  method PadUnits(organized: seq<seq<nat>>, count: nat) returns (padded: seq<seq<nat>>)
    requires count <= |organized|
    ensures |padded| == |organized|
    ensures forall u :: 0 <= u < |organized| ==>
      padded[u] == if u < count then organized[u] else organized[u] + [0]
  {
    padded := organized;
    var c := count;
    while c < |organized|
      invariant count <= c <= |organized| == |padded|
      invariant forall u :: 0 <= u < |organized| ==>
        padded[u] == if count <= u < c then organized[u] + [0] else organized[u]
    {
      padded := padded[c := padded[c] + [0]];
      c := c + 1;
    }
  }

  method NewRows(numPlots: nat) returns (organized: seq<seq<nat>>)
    ensures Filled([], [], numPlots, organized)
  {
    organized := [];
    for x := 0 to numPlots
      invariant |organized| == x
      invariant forall u :: 0 <= u < x ==> organized[u] == [0]
    {
      organized := organized + [[0]];
    }
    forall u | 0 <= u < numPlots ensures organized[u] == PartialRow([], [], u) {
    }
  }

  method NullOrganizedShader(nullVar: seq<Token>) returns (r: Result<seq<seq<nat>>, LogError>)
    ensures r.Success? <==> Fits(nullVar)
    ensures r.Success? ==> r.value == Transposed(Groups(nullVar), LastSize(Groups(nullVar)))
  {
    var numPlots := CountPlots(nullVar);
    var organized := NewRows(numPlots);
    var count := 0;
    for x := 0 to |nullVar|
      invariant Scanned(nullVar, x, count, numPlots, organized)
    {
      if nullVar[x].Null? {
        var padded := PadUnits(organized, count);
        ScanNull(nullVar, x, count, numPlots, organized, padded);
        organized, count := padded, 0;
      } else {
        if count >= numPlots {
          TooLong(nullVar, x, count, numPlots, organized);
          return Failure(IndexError);
        }
        if !FitsCell(nullVar[x].v) {
          return Failure(OverflowError);
        }
        var longer := organized[count := organized[count] + [nullVar[x].v]];
        ScanValue(nullVar, x, count, numPlots, organized, longer);
        organized, count := longer, count + 1;
      }
    }
    ScannedAll(nullVar, count, organized);
    return Success(organized);
  }

  /** Every value fits a cell and no group is longer than the last non-empty one. */
  ghost predicate Fits(s: seq<Token>) {
    CellsFit(s) && forall g :: g in Groups(s) ==> |g| <= LastSize(Groups(s))
  }

  /** The loop state before token `x`. */
  ghost predicate Scanned(s: seq<Token>, x: nat, count: nat, units: nat, m: seq<seq<nat>>)
    requires x <= |s|
  {
    && count == |Open(s[..x])| <= units == |m|
    && Filled(Closed(s[..x]), Open(s[..x]), units, m)
    && CellsFit(s[..x])
  }

  lemma ScanNull(s: seq<Token>, x: nat, count: nat, units: nat, m: seq<seq<nat>>, padded: seq<seq<nat>>)
    requires x < |s| && s[x].Null? && Scanned(s, x, count, units, m) && |padded| == units
    requires forall u :: 0 <= u < units ==> padded[u] == if u < count then m[u] else m[u] + [0]
    ensures Scanned(s, x + 1, 0, units, padded)
  {
    Snoc(s, x);
    FillNull(Closed(s[..x]), Open(s[..x]), units, m, padded);
  }

  lemma ScanValue(s: seq<Token>, x: nat, count: nat, units: nat, m: seq<seq<nat>>, longer: seq<seq<nat>>)
    requires x < |s| && s[x].Val? && Scanned(s, x, count, units, m) && count < units
    requires FitsCell(s[x].v) && longer == m[count := m[count] + [s[x].v]]
    ensures Scanned(s, x + 1, count + 1, units, longer)
  {
    Snoc(s, x);
    assert s[..x + 1] == s[..x] + [s[x]];
    FillValue(Closed(s[..x]), Open(s[..x]), s[x].v, units, m, longer);
  }

  lemma TooLong(s: seq<Token>, x: nat, count: nat, units: nat, m: seq<seq<nat>>)
    requires x < |s| && s[x].Val? && Scanned(s, x, count, units, m) && count >= units
    requires units == LastSize(Groups(s))
    ensures !Fits(s)
  {
    Snoc(s, x);
    OpenInGroup(s, x + 1);
  }

  lemma ScannedAll(s: seq<Token>, count: nat, m: seq<seq<nat>>)
    requires Scanned(s, |s|, count, LastSize(Groups(s)), m)
    ensures Fits(s) && m == Transposed(Groups(s), LastSize(Groups(s)))
  {
    assert s[..|s|] == s;
    FilledAll(s, m);
  }

  /** The table after the closed groups and a run that fits the units. */
  ghost predicate Filled(closed: seq<seq<nat>>, open: seq<nat>, units: nat, m: seq<seq<nat>>) {
    && |open| <= units == |m|
    && (forall g :: g in closed ==> |g| <= units)
    && (forall u :: 0 <= u < units ==> m[u] == PartialRow(closed, open, u))
  }

  lemma FillNull(closed: seq<seq<nat>>, open: seq<nat>, units: nat, m: seq<seq<nat>>, padded: seq<seq<nat>>)
    requires Filled(closed, open, units, m) && |padded| == units
    requires forall u :: 0 <= u < units ==> padded[u] == if u < |open| then m[u] else m[u] + [0]
    ensures Filled(closed + [open], [], units, padded)
  {
    forall u | 0 <= u < units ensures padded[u] == PartialRow(closed + [open], [], u) {
      ColumnSnoc(closed, open, u);
      if u < |open| {
        assert padded[u] == [0] + Column(closed, u) + [open[u]];
      } else {
        assert padded[u] == [0] + Column(closed, u) + [0];
      }
    }
  }

  lemma FillValue(closed: seq<seq<nat>>, open: seq<nat>, v: nat, units: nat, m: seq<seq<nat>>, longer: seq<seq<nat>>)
    requires Filled(closed, open, units, m) && |open| < units
    requires longer == m[|open| := m[|open|] + [v]]
    ensures Filled(closed, open + [v], units, longer)
  {
  }

  /** A run left open at the end is the last group, so it reaches every unit. */
  lemma FilledAll(s: seq<Token>, m: seq<seq<nat>>)
    requires Filled(Closed(s), Open(s), LastSize(Groups(s)), m)
    ensures m == Transposed(Groups(s), LastSize(Groups(s)))
    ensures forall g :: g in Groups(s) ==> |g| <= LastSize(Groups(s))
  {
    LastSizeSnoc(Closed(s), Open(s));
    forall u | 0 <= u < |m| ensures m[u] == Transposed(Groups(s), |m|)[u] {
      ColumnSnoc(Closed(s), Open(s), u);
    }
  }

  /** Nothing logged is lost: the table sums to the stream. */
  lemma {:induction false} TransposeConserves(s: seq<Token>, units: nat)
    requires forall g :: g in Groups(s) ==> |g| <= units
    ensures Total(Transposed(Groups(s), units)) == TokenSum(s)
  {
    TransposedTotal(Groups(s), units);
    GroupsTotal(s);
    TotalSnoc(Closed(s), Open(s));
  }

  lemma {:induction false} GroupsTotal(s: seq<Token>)
    ensures Total(Closed(s)) + Sum(Open(s)) == TokenSum(s)
  {
    if s != [] {
      var front := s[..|s| - 1];
      GroupsTotal(front);
      TotalSnoc(Closed(front), Open(front));
      if s[|s| - 1].Val? {
        SumSnoc(Open(front), s[|s| - 1].v);
      }
    }
  }

  lemma {:induction false} TransposedTotal(groups: seq<seq<nat>>, units: nat)
    requires forall g :: g in groups ==> |g| <= units
    ensures Total(Transposed(groups, units)) == Total(groups)
  {
    if groups == [] {
      TotalZero(Transposed(groups, units));
    } else {
      var front, g := groups[..|groups| - 1], groups[|groups| - 1];
      assert groups == front + [g];
      TransposedTotal(front, units);
      GroupTotal(front, g, units);
      TotalSnoc(front, g);
    }
  }

  /** One more group adds its sum to the table. */
  lemma {:induction false} GroupTotal(groups: seq<seq<nat>>, g: seq<nat>, units: nat)
    requires |g| <= units
    ensures Total(Transposed(groups + [g], units)) == Total(Transposed(groups, units)) + Sum(g)
  {
    var column := seq(units, u requires 0 <= u < units => Cell(g, u));
    assert (groups + [g])[..|groups|] == groups;
    TotalAppendColumn(Transposed(groups, units), column, Transposed(groups + [g], units));
    PaddedSum(g, units);
  }

  lemma {:induction false} PaddedSum(g: seq<nat>, units: nat)
    requires |g| <= units
    ensures Sum(seq(units, u requires 0 <= u < units => Cell(g, u))) == Sum(g)
  {
    var column := seq(units, u requires 0 <= u < units => Cell(g, u));
    if |g| == units {
      assert column == g;
    } else {
      PaddedSum(g, units - 1);
      assert column[..units - 1] == seq(units - 1, u requires 0 <= u < units - 1 => Cell(g, u));
    }
  }

  /* Binning long rows */

  const BINS: nat := 512

  function Min(a: nat, b: nat): nat {
    if a < b then a else b
  }

  /** The bin of each sample when `n` samples share a bin. */
  function BinIndices(length: nat, n: nat): (bins: seq<nat>)
    requires n > 0
    ensures |bins| == length
  {
    seq(length, col requires 0 <= col < length => col / n)
  }

  /** What bin `b` collects when sample `col` goes to bin `bins[col]`. */
  function BinSum(row: seq<nat>, bins: seq<nat>, b: nat): nat
    requires |row| <= |bins|
  {
    if row == [] then 0
    else BinSum(row[..|row| - 1], bins, b) + (if bins[|row| - 1] == b then row[|row| - 1] else 0)
  }

  function BinSums(row: seq<nat>, bins: seq<nat>): (sums: seq<nat>)
    requires |row| <= |bins|
    ensures |sums| == BINS
  {
    seq(BINS, b requires 0 <= b < BINS => BinSum(row, bins, b))
  }

  function Averages(sums: seq<nat>, n: nat): (out: seq<nat>)
    requires n > 0
    ensures |out| == |sums|
  {
    seq(|sums|, b requires 0 <= b < |sums| => sums[b] / n)
  }

  /** The averages of the bins. */
  function Binned(row: seq<nat>, n: nat): (out: seq<nat>)
    requires n > 0
    ensures |out| == BINS
  {
    Averages(BinSums(row, BinIndices(|row|, n)), n)
  }

  ghost predicate AllFit(sums: seq<nat>) {
    forall b :: 0 <= b < |sums| ==> FitsCell(sums[b])
  }

  ghost predicate RowFits(row: seq<nat>, n: nat)
    requires n > 0
  {
    AllFit(BinSums(row, BinIndices(|row|, n)))
  }

  /** Bins one row: sums the samples of each bin in place, then averages. */
  method BinRow(row: seq<nat>, n: nat) returns (r: Result<seq<nat>, LogError>)
    requires n > 0 && |row| <= BINS * n
    ensures r.Success? <==> RowFits(row, n)
    ensures r.Success? ==> r.value == Binned(row, n)
  {
    var newy := new nat[BINS](_ => 0);
    ghost var bins := BinIndices(|row|, n);
    BinsBelow(|row|, n);
    NoSamples(row, bins, newy[..]);
    for col := 0 to |row|
      invariant newy[..] == BinSums(row[..col], bins) && AllFit(newy[..])
    {
      var newcol := col / n;
      assert newcol == bins[col] < BINS;
      BinSumsStep(row, bins, col);
      if !FitsCell(newy[newcol] + row[col]) {
        BinOverflows(row, bins, col);
        return Failure(OverflowError);
      }
      ghost var before := newy[..];
      newy[newcol] := newy[newcol] + row[col];
      assert newy[..] == before[newcol := before[newcol] + row[col]];
    }
    assert row[..|row|] == row;
    AverageCells(newy, n);
    return Success(newy[..]);
  }

  method AverageCells(newy: array<nat>, n: nat)
    requires n > 0
    modifies newy
    ensures newy[..] == Averages(old(newy[..]), n)
  {
    for col := 0 to newy.Length
      invariant forall b :: 0 <= b < newy.Length ==>
        newy[b] == if b < col then old(newy[b]) / n else old(newy[b])
    {
      newy[col] := newy[col] / n;
    }
  }

  lemma BinSumStep(row: seq<nat>, bins: seq<nat>, col: nat, b: nat)
    requires col < |row| <= |bins|
    ensures BinSum(row[..col + 1], bins, b) == BinSum(row[..col], bins, b) + (if bins[col] == b then row[col] else 0)
  {
    assert row[..col + 1][..col] == row[..col];
  }

  lemma BinSumsStep(row: seq<nat>, bins: seq<nat>, col: nat)
    requires col < |row| <= |bins| && bins[col] < BINS
    ensures var sums := BinSums(row[..col], bins);
      BinSums(row[..col + 1], bins) == sums[bins[col] := sums[bins[col]] + row[col]]
  {
    forall b | 0 <= b < BINS
      ensures BinSum(row[..col + 1], bins, b) == BinSum(row[..col], bins, b) + (if bins[col] == b then row[col] else 0)
    {
      BinSumStep(row, bins, col, b);
    }
  }

  lemma {:induction false} BinGrows(row: seq<nat>, bins: seq<nat>, col: nat, b: nat)
    requires col <= |row| <= |bins|
    ensures BinSum(row[..col], bins, b) <= BinSum(row, bins, b)
    decreases |row| - col
  {
    if col < |row| {
      BinSumStep(row, bins, col, b);
      BinGrows(row, bins, col + 1, b);
    } else {
      assert row[..col] == row;
    }
  }

  lemma NoSamples(row: seq<nat>, bins: seq<nat>, zeros: seq<nat>)
    requires |zeros| == BINS && forall b :: 0 <= b < BINS ==> zeros[b] == 0
    ensures zeros == BinSums(row[..0], bins) && AllFit(zeros)
  {
  }

  /** A running sum too large for a cell makes the whole bin too large. */
  lemma BinOverflows(row: seq<nat>, bins: seq<nat>, col: nat)
    requires col < |row| <= |bins| && bins[col] < BINS
    requires !FitsCell(BinSums(row[..col], bins)[bins[col]] + row[col])
    ensures !AllFit(BinSums(row, bins))
  {
    var b := bins[col];
    BinSumStep(row, bins, col, b);
    BinGrows(row, bins, col + 1, b);
    assert !FitsCell(BinSums(row, bins)[b]);
  }

  lemma BinBelow(col: nat, length: nat, n: nat)
    requires n > 0 && col < length <= BINS * n
    ensures col / n < BINS
  {
    assert col < BINS * n;
  }

  lemma BinsBelow(length: nat, n: nat)
    requires n > 0 && length <= BINS * n
    ensures forall col :: 0 <= col < length ==> BinIndices(length, n)[col] < BINS
  {
    forall col | 0 <= col < length ensures BinIndices(length, n)[col] < BINS {
      BinBelow(col, length, n);
    }
  }

  /** The samples sharing a bin once rows of `length` are longer than the bins. */
  function BinWidth(length: nat): (n: nat)
    ensures n > 0 && length < BINS * n
  {
    length / BINS + 1
  }

  /** Bins every row of the table in place. */
  method BinRows(table: seq<seq<nat>>, length: nat) returns (r: Result<seq<seq<nat>>, LogError>)
    requires forall u :: 0 <= u < |table| ==> |table[u]| == length
    ensures r.Success? <==> TableFits(table, BinWidth(length))
    ensures r.Success? ==> r.value == BinnedTable(table, BinWidth(length))
  {
    var n := BinWidth(length);
    var organized := table;
    for row := 0 to |organized|
      invariant |organized| == |table|
      invariant forall u :: row <= u < |table| ==> organized[u] == table[u]
      invariant forall u :: 0 <= u < row ==> organized[u] == Binned(table[u], n)
      invariant forall u :: 0 <= u < row ==> RowFits(table[u], n)
    {
      var newy := BinRow(organized[row], n);
      if newy.Failure? {
        return Failure(newy.error);
      }
      organized := organized[row := newy.value];
    }
    return Success(organized);
  }

  function BinnedTable(table: seq<seq<nat>>, n: nat): (out: seq<seq<nat>>)
    requires n > 0
  {
    seq(|table|, u requires 0 <= u < |table| => Binned(table[u], n))
  }

  ghost predicate TableFits(table: seq<seq<nat>>, n: nat)
    requires n > 0
  {
    forall u :: 0 <= u < |table| ==> RowFits(table[u], n)
  }

  /** As `NullOrganizedShader`, with rows of more than 512 samples binned. */
  method NullOrganizedStackedBar(nullVar: seq<Token>) returns (r: Result<seq<seq<nat>>, LogError>)
    ensures var units, length := LastSize(Groups(nullVar)), |Groups(nullVar)| + 1;
      var table := Transposed(Groups(nullVar), units);
      && (r.Success? <==>
           (Fits(nullVar) && units > 0 && (length > BINS ==> TableFits(table, BinWidth(length)))))
      && (r.Success? ==> r.value == if length <= BINS then table else BinnedTable(table, BinWidth(length)))
  {
    var shader := NullOrganizedShader(nullVar);
    if shader.Failure? {
      return shader;
    }
    var table := shader.value;
    if |table| == 0 {
      return Failure(IndexError);
    }
    var length := |table[0]|;
    if length <= BINS {
      return Success(table);
    }
    r := BinRows(table, length);
  }

  /** Every sample lands in one of the 512 bins, and bin `b` collects the slice `[b * n, (b + 1) * n)`
      of the row, cut at its end. */
  lemma {:induction false} BinIsSlice(row: seq<nat>, b: nat)
    ensures var n := BinWidth(|row|); 0 <= b * n <= (b + 1) * n
    ensures var n, bins := BinWidth(|row|), BinIndices(|row|, BinWidth(|row|));
      && BinSum(row, bins, b) == Sum(row[Min(b * n, |row|)..Min((b + 1) * n, |row|)])
      && forall col :: 0 <= col < |row| ==> bins[col] < BINS
  {
    var n := BinWidth(|row|);
    var bins := BinIndices(|row|, n);
    BinsBelow(|row|, n);
    assert (b + 1) * n == b * n + n;
    forall col | 0 <= col < |row| ensures bins[col] == b <==> b * n <= col < b * n + n {
      BinOf(col, b, n);
    }
    SliceSum(row, bins, b, b * n, b * n + n);
  }

  /** The slice `[from, to)` of a row, cut at its end. */
  function Cut(row: seq<nat>, from: nat, to: nat): seq<nat>
    requires from <= to
  {
    row[Min(from, |row|)..Min(to, |row|)]
  }

  lemma {:induction false} CutSnoc(row: seq<nat>, x: nat, from: nat, to: nat)
    requires from <= to
    ensures Cut(row + [x], from, to) == if from <= |row| < to then Cut(row, from, to) + [x] else Cut(row, from, to)
  {
    if |row| >= to {
      assert (row + [x])[from..to] == row[from..to];
    } else if from <= |row| {
      assert (row + [x])[from..|row| + 1] == row[from..|row|] + [x];
    }
  }

  lemma {:induction false} SliceSum(row: seq<nat>, bins: seq<nat>, b: nat, from: nat, to: nat)
    requires |row| <= |bins| && from <= to
    requires forall col :: 0 <= col < |row| ==> (bins[col] == b <==> from <= col < to)
    ensures BinSum(row, bins, b) == Sum(Cut(row, from, to))
  {
    if row != [] {
      var col := |row| - 1;
      SliceSum(row[..col], bins, b, from, to);
      assert row == row[..col] + [row[col]];
      CutSnoc(row[..col], row[col], from, to);
      SumSnoc(Cut(row[..col], from, to), row[col]);
    }
  }

  lemma BinOf(col: nat, b: nat, n: nat)
    requires n > 0
    ensures b == col / n <==> b * n <= col < b * n + n
  {
    if b * n <= col < b * n + n {
      if b < col / n {
        MulMonotone(b + 1, col / n, n);
      } else if b > col / n {
        MulMonotone(col / n + 1, b, n);
      }
    }
  }

  /** Averaging loses less than a bin width per bin and never adds. */
  lemma {:induction false} BinningBounds(row: seq<nat>)
    ensures var n := BinWidth(|row|);
      n * Sum(Binned(row, n)) <= Sum(row) <= n * Sum(Binned(row, n)) + BINS * (n - 1)
  {
    var n := BinWidth(|row|);
    var bins := BinIndices(|row|, n);
    BinsBelow(|row|, n);
    BinsSumToRow(row, bins);
    AveragesBound(BinSums(row, bins), n);
  }

  lemma {:induction false} BinsSumToRow(row: seq<nat>, bins: seq<nat>)
    requires |row| <= |bins| && forall col :: 0 <= col < |row| ==> bins[col] < BINS
    ensures Sum(BinSums(row, bins)) == Sum(row)
  {
    if row == [] {
      ZeroSum(BinSums(row, bins));
    } else {
      var col := |row| - 1;
      BinsSumToRow(row[..col], bins);
      BinSumsStep(row, bins, col);
      assert row[..col + 1] == row;
      SumUpdate(BinSums(row[..col], bins), bins[col], row[col]);
    }
  }

  lemma {:induction false} AveragesBound(sums: seq<nat>, n: nat)
    requires n > 0
    ensures n * Sum(Averages(sums, n)) <= Sum(sums) <= n * Sum(Averages(sums, n)) + |sums| * (n - 1)
  {
    if sums != [] {
      var k := |sums| - 1;
      AveragesBound(sums[..k], n);
      assert Averages(sums, n)[..k] == Averages(sums[..k], n);
      AddBin(n, k, Sum(sums[..k]), Sum(Averages(sums[..k], n)), sums[k]);
    }
  }

  lemma AddBin(n: nat, k: nat, sum: nat, averages: nat, x: nat)
    requires n > 0 && n * averages <= sum <= n * averages + k * (n - 1)
    ensures n * (averages + x / n) <= sum + x <= n * (averages + x / n) + (k + 1) * (n - 1)
  {
    assert n * (averages + x / n) == n * averages + n * (x / n);
    assert (k + 1) * (n - 1) == k * (n - 1) + (n - 1);
    assert n * (x / n) <= x <= n * (x / n) + (n - 1);
  }
}
