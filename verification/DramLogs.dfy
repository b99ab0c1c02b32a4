/** DRAM statistics: aerialvision/organizedata.py files logged values under their partition or their
    chip and bank, aerialvision/guiclasses.py adds the banks of each chip into an image. */
module DramLogs {
  import opened Results
  import opened Sums
  import opened Sequences
  import opened LogStreams

  /** A logged value and the header of its group. */
  datatype Record = Record(header: seq<nat>, value: nat)

  /** The values after the first `h` of every group, each with those `h` as its header, in log order. */
  function Logged(s: seq<Token>, h: nat): seq<Record> {
    if s == [] then []
    else
      var front := s[..|s| - 1];
      if s[|s| - 1].Val? && |Open(front)| >= h
      then Logged(front, h) + [Record(Open(front)[..h], s[|s| - 1].v)]
      else Logged(front, h)
  }

  /** What was logged under one header, in log order. */
  function Series(records: seq<Record>, header: seq<nat>): seq<nat> {
    if records == [] then []
    else
      var last := records[|records| - 1];
      if last.header == header then Series(records[..|records| - 1], header) + [last.value]
      else Series(records[..|records| - 1], header)
  }

  function RecordSum(records: seq<Record>): nat {
    if records == [] then 0 else RecordSum(records[..|records| - 1]) + records[|records| - 1].value
  }

  ghost predicate RecordsFit(records: seq<Record>) {
    records == [] || (RecordsFit(records[..|records| - 1]) && FitsCell(records[|records| - 1].value))
  }

  lemma LoggedSnoc(s: seq<Token>, x: nat, h: nat)
    requires x < |s|
    ensures Logged(s[..x + 1], h) ==
      if s[x].Val? && |Open(s[..x])| >= h then Logged(s[..x], h) + [Record(Open(s[..x])[..h], s[x].v)]
      else Logged(s[..x], h)
  {
    assert s[..x + 1][..x] == s[..x];
  }

  lemma {:induction false} LoggedGrows(s: seq<Token>, x: nat, h: nat)
    requires x <= |s|
    ensures Logged(s[..x], h) <= Logged(s, h)
    decreases |s| - x
  {
    if x < |s| {
      LoggedSnoc(s, x, h);
      LoggedGrows(s, x + 1, h);
    } else {
      assert s[..x] == s;
    }
  }

  lemma SeriesSnoc(records: seq<Record>, r: Record, header: seq<nat>)
    ensures Series(records + [r], header) ==
      if r.header == header then Series(records, header) + [r.value] else Series(records, header)
  {
    assert (records + [r])[..|records|] == records;
  }

  lemma {:induction false} HeaderLength(s: seq<Token>, h: nat)
    ensures forall i :: 0 <= i < |Logged(s, h)| ==> |Logged(s, h)[i].header| == h
  {
    if s != [] {
      HeaderLength(s[..|s| - 1], h);
    }
  }

  /* Conservation */

  function SeriesSums(records: seq<Record>, headers: seq<seq<nat>>): (sums: seq<nat>)
    ensures |sums| == |headers|
  {
    seq(|headers|, i requires 0 <= i < |headers| => Sum(Series(records, headers[i])))
  }

  ghost predicate Covered(records: seq<Record>, headers: seq<seq<nat>>) {
    forall i :: 0 <= i < |records| ==> records[i].header in headers
  }

  /** Filing by header neither loses nor repeats a value. */
  lemma {:induction false} FilingConserves(records: seq<Record>, headers: seq<seq<nat>>)
    requires Distinct(headers)
    requires Covered(records, headers)
    ensures Sum(SeriesSums(records, headers)) == RecordSum(records)
  {
    if records == [] {
      ZeroSum(SeriesSums(records, headers));
    } else {
      var front, r := records[..|records| - 1], records[|records| - 1];
      FilingConserves(front, headers);
      FileLast(front, r, headers);
      assert records == front + [r];
    }
  }

  lemma {:induction false} FileLast(records: seq<Record>, r: Record, headers: seq<seq<nat>>)
    requires Distinct(headers) && r.header in headers
    ensures Sum(SeriesSums(records + [r], headers)) == Sum(SeriesSums(records, headers)) + r.value
  {
    var k :| 0 <= k < |headers| && headers[k] == r.header;
    FileOne(records, r, headers, k);
    SumUpdate(SeriesSums(records, headers), k, r.value);
  }

  lemma {:induction false} FileOne(records: seq<Record>, r: Record, headers: seq<seq<nat>>, k: nat)
    requires Distinct(headers) && k < |headers| && headers[k] == r.header
    ensures var sums := SeriesSums(records, headers);
      SeriesSums(records + [r], headers) == sums[k := sums[k] + r.value]
  {
    var sums, more := SeriesSums(records, headers), SeriesSums(records + [r], headers);
    forall i | 0 <= i < |headers| ensures more[i] == if i == k then sums[i] + r.value else sums[i] {
      SeriesSnoc(records, r, headers[i]);
      SumSnoc(Series(records, headers[i]), r.value);
      assert i != k ==> headers[i] != headers[k];
    }
  }

  /* One row per partition */

  ghost predicate OneNumber(records: seq<Record>) {
    forall i :: 0 <= i < |records| ==> |records[i].header| == 1
  }

  /** The rows there are once these records are filed: one, or up to the largest partition number. */
  ghost function RowCount(records: seq<Record>): nat
    requires OneNumber(records)
  {
    if records == [] then 1
    else
      var before, m := RowCount(records[..|records| - 1]), records[|records| - 1].header[0];
      if m < before then before else m + 1
  }

  /** No partition appears before the row below it exists. */
  ghost predicate NoGaps(records: seq<Record>)
    requires OneNumber(records)
  {
    records == [] ||
    (NoGaps(records[..|records| - 1]) &&
     records[|records| - 1].header[0] <= RowCount(records[..|records| - 1]))
  }

  ghost predicate RowsAre(records: seq<Record>, organized: seq<seq<nat>>)
    requires OneNumber(records)
  {
    && |organized| == RowCount(records)
    && forall m :: 0 <= m < |organized| ==> organized[m] == [0] + Series(records, [m])
  }

  lemma FileRow(records: seq<Record>, m: nat, v: nat, organized: seq<seq<nat>>)
    requires Filed(records, organized) && FitsCell(v) && m <= |organized|
    ensures var rows := if m < |organized| then organized else organized + [[0]];
      Filed(records + [Record([m], v)], rows[m := rows[m] + [v]])
  {
    var more := records + [Record([m], v)];
    assert more[..|records|] == records;
    var rows := if m < |organized| then organized else organized + [[0]];
    forall k | 0 <= k < |rows|
      ensures rows[m := rows[m] + [v]][k] == [0] + Series(more, [k])
    {
      FileCell(records, m, v, organized, k);
    }
  }

  lemma FileCell(records: seq<Record>, m: nat, v: nat, organized: seq<seq<nat>>, k: nat)
    requires OneNumber(records) && RowsAre(records, organized) && m <= |organized| && k <= |organized|
    ensures var row := if k < |organized| then organized[k] else [0];
      [0] + Series(records + [Record([m], v)], [k]) == if k == m then row + [v] else row
  {
    SeriesSnoc(records, Record([m], v), [k]);
    assert [m] == [k] <==> m == k;
    NoRecords(records, |organized|);
    assert [0] + Series(records, [m]) + [v] == [0] + (Series(records, [m]) + [v]);
  }

  lemma {:induction false} NoRecords(records: seq<Record>, m: nat)
    requires OneNumber(records)
    requires m >= RowCount(records)
    ensures Series(records, [m]) == []
  {
    if records != [] {
      NoRecords(records[..|records| - 1], m);
      assert records[|records| - 1].header != [m];
    }
  }

  method NullOrganizedDram(nullVar: seq<Token>) returns (r: Result<seq<seq<nat>>, LogError>)
    ensures OneNumber(Logged(nullVar, 1))
    ensures r.Success? <==> RecordsFit(Logged(nullVar, 1)) && NoGaps(Logged(nullVar, 1))
    ensures r.Success? ==> RowsAre(Logged(nullVar, 1), r.value)
  {
    var organized := [[0]];
    var mem: nat, memNum: nat := 1, 0;
    for x := 0 to |nullVar|
      invariant DramScan(nullVar, x, mem, memNum, organized)
    {
      var iter := nullVar[x];
      if iter.Null? {
        DramNull(nullVar, x, mem, memNum, organized);
        mem := 1;
        continue;
      } else if mem == 1 {
        DramHeader(nullVar, x, memNum, organized);
        memNum := iter.v;
        mem := 0;
        continue;
      } else {
        if memNum > |organized| || !FitsCell(iter.v) {
          DramBadValue(nullVar, x, mem, memNum, organized);
          return Failure(if memNum > |organized| then IndexError else OverflowError);
        }
        DramValue(nullVar, x, mem, memNum, organized);
        if memNum == |organized| {
          organized := organized + [[0]];
        }
        organized := organized[memNum := organized[memNum] + [iter.v]];
      }
    }
    assert nullVar[..|nullVar|] == nullVar;
    return Success(organized);
  }

  /** All records so far are in the rows. */
  ghost predicate Filed(records: seq<Record>, organized: seq<seq<nat>>) {
    OneNumber(records) && RowsAre(records, organized) && NoGaps(records) && RecordsFit(records)
  }

  /** The loop state before token `x`: `mem` is 1 until the group's number has been read. */
  ghost predicate DramScan(s: seq<Token>, x: nat, mem: nat, memNum: nat, organized: seq<seq<nat>>)
    requires x <= |s|
  {
    && (mem == 1 <==> Open(s[..x]) == [])
    && (mem != 1 ==> Open(s[..x])[..1] == [memNum])
    && Filed(Logged(s[..x], 1), organized)
  }

  lemma DramNull(s: seq<Token>, x: nat, mem: nat, memNum: nat, organized: seq<seq<nat>>)
    requires x < |s| && s[x].Null? && DramScan(s, x, mem, memNum, organized)
    ensures DramScan(s, x + 1, 1, memNum, organized)
  {
    Snoc(s, x);
    LoggedSnoc(s, x, 1);
  }

  lemma DramHeader(s: seq<Token>, x: nat, memNum: nat, organized: seq<seq<nat>>)
    requires x < |s| && s[x].Val? && DramScan(s, x, 1, memNum, organized)
    ensures DramScan(s, x + 1, 0, s[x].v, organized)
  {
    Snoc(s, x);
    LoggedSnoc(s, x, 1);
  }

  lemma DramValue(s: seq<Token>, x: nat, mem: nat, memNum: nat, organized: seq<seq<nat>>)
    requires x < |s| && s[x].Val? && mem != 1 && DramScan(s, x, mem, memNum, organized)
    requires memNum <= |organized| && FitsCell(s[x].v)
    ensures var rows := if memNum < |organized| then organized else organized + [[0]];
      DramScan(s, x + 1, mem, memNum, rows[memNum := rows[memNum] + [s[x].v]])
  {
    Snoc(s, x);
    LoggedSnoc(s, x, 1);
    FileRow(Logged(s[..x], 1), memNum, s[x].v, organized);
  }

  lemma DramBadValue(s: seq<Token>, x: nat, mem: nat, memNum: nat, organized: seq<seq<nat>>)
    requires x < |s| && s[x].Val? && mem != 1 && DramScan(s, x, mem, memNum, organized)
    requires memNum > |organized| || !FitsCell(s[x].v)
    ensures OneNumber(Logged(s, 1))
    ensures !(RecordsFit(Logged(s, 1)) && NoGaps(Logged(s, 1)))
  {
    HeaderLength(s, 1);
    HeaderLength(s[..x + 1], 1);
    LoggedSnoc(s, x, 1);
    LoggedGrows(s, x + 1, 1);
    var bad := Logged(s[..x + 1], 1);
    assert bad[..|bad| - 1] == Logged(s[..x], 1);
    assert bad[|bad| - 1] == Record([memNum], s[x].v);
    BadPrefix(bad, Logged(s, 1));
  }

  lemma {:induction false} BadPrefix(bad: seq<Record>, all: seq<Record>)
    requires OneNumber(bad) && OneNumber(all) && bad <= all
    ensures RecordsFit(all) ==> RecordsFit(bad)
    ensures NoGaps(all) ==> NoGaps(bad)
  {
    if bad != all {
      BadPrefix(bad, all[..|all| - 1]);
    }
  }

  /** The rows hold every logged value once. */
  lemma {:induction false} DramConserves(records: seq<Record>, organized: seq<seq<nat>>)
    requires OneNumber(records)
    requires RowsAre(records, organized)
    ensures Total(organized) == RecordSum(records)
  {
    var headers := seq(|organized|, m requires 0 <= m < |organized| => [m]);
    forall i | 0 <= i < |records| ensures records[i].header in headers {
      HeaderBelow(records, i);
      assert headers[records[i].header[0]] == records[i].header;
    }
    assert forall i, j :: 0 <= i < j < |headers| ==> headers[i][0] != headers[j][0];
    FilingConserves(records, headers);
    forall m | 0 <= m < |organized| ensures Sum(organized[m]) == SeriesSums(records, headers)[m] {
      SumConcat([0], Series(records, [m]));
      assert Sum([0]) == Sum([]) + 0;
    }
    TotalIsSum(organized, SeriesSums(records, headers));
  }

  lemma {:induction false} HeaderBelow(records: seq<Record>, i: nat)
    requires OneNumber(records)
    requires i < |records|
    ensures records[i].header[0] < RowCount(records)
  {
    if i < |records| - 1 {
      HeaderBelow(records[..|records| - 1], i);
    }
  }

  lemma {:induction false} TotalIsSum(rows: seq<seq<nat>>, sums: seq<nat>)
    requires |rows| == |sums|
    requires forall m :: 0 <= m < |rows| ==> Sum(rows[m]) == sums[m]
    ensures Total(rows) == Sum(sums)
  {
    if rows != [] {
      TotalIsSum(rows[..|rows| - 1], sums[..|sums| - 1]);
    }
  }
}
