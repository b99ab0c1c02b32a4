/** DRAM accesses by chip and bank: filed under "chip.bank" by aerialvision/organizedata.py, and added
    up per chip for the image drawn by aerialvision/guiclasses.py. */
module ChipBanks {
  import opened Results
  import opened Sequences
  import opened Sums
  import opened LogStreams
  import opened DramLogs
  import opened BankKeys

  ghost predicate TwoNumbers(records: seq<Record>) {
    forall i :: 0 <= i < |records| ==> |records[i].header| == 2
  }

  /** One series per logged header, opened by a zero. */
  ghost predicate SeriesAre(records: seq<Record>, organized: map<string, seq<nat>>)
    requires TwoNumbers(records)
  {
    && (forall key :: key in organized ==> IsKey(key))
    && forall chip, bank :: SeriesIs(records, organized, chip, bank)
  }

  ghost predicate SeriesIs(records: seq<Record>, organized: map<string, seq<nat>>, chip: nat, bank: nat) {
    var series := Series(records, [chip, bank]);
    if series == [] then Key(chip, bank) !in organized
    else Key(chip, bank) in organized && organized[Key(chip, bank)] == [0] + series
  }

  lemma FileKey(records: seq<Record>, chip: nat, bank: nat, v: nat, organized: map<string, seq<nat>>)
    requires TwoNumbers(records) && SeriesAre(records, organized)
    ensures var more, key := records + [Record([chip, bank], v)], Key(chip, bank);
      && TwoNumbers(more)
      && SeriesAre(more, organized[key := (if key in organized then organized[key] else [0]) + [v]])
  {
    var more, key := records + [Record([chip, bank], v)], Key(chip, bank);
    var after := organized[key := (if key in organized then organized[key] else [0]) + [v]];
    forall c, b ensures SeriesIs(more, after, c, b) {
      FileOneKey(records, chip, bank, v, organized, c, b);
    }
  }

  lemma FileOneKey(records: seq<Record>, chip: nat, bank: nat, v: nat, organized: map<string, seq<nat>>, c: nat, b: nat)
    requires SeriesIs(records, organized, chip, bank) && SeriesIs(records, organized, c, b)
    ensures var key := Key(chip, bank);
      SeriesIs(records + [Record([chip, bank], v)],
        organized[key := (if key in organized then organized[key] else [0]) + [v]], c, b)
  {
    SeriesSnoc(records, Record([chip, bank], v), [c, b]);
    KeyRoundTrip(chip, bank);
    KeyRoundTrip(c, b);
    assert [chip, bank] == [c, b] <==> chip == c && bank == b;
    assert [0] + Series(records, [chip, bank]) + [v] == [0] + (Series(records, [chip, bank]) + [v]);
  }

  method NullOrganizedDramV2(nullVar: seq<Token>) returns (r: Result<map<string, seq<nat>>, LogError>)
    ensures TwoNumbers(Logged(nullVar, 2))
    ensures r.Success? <==> RecordsFit(Logged(nullVar, 2))
    ensures r.Success? ==> SeriesAre(Logged(nullVar, 2), r.value)
  {
    var organized: map<string, seq<nat>> := map[];
    var mem: nat, chipNum: nat, bankNum: nat := 1, 0, 0;
    for x := 0 to |nullVar|
      invariant BankScan(nullVar, x, mem, chipNum, bankNum, organized)
    {
      var iter := nullVar[x];
      if iter.Null? {
        BankNull(nullVar, x, mem, chipNum, bankNum, organized);
        mem := 1;
        continue;
      } else if mem == 1 {
        BankHeader(nullVar, x, mem, chipNum, bankNum, organized);
        chipNum := iter.v;
        mem := mem + 1;
        continue;
      } else if mem == 2 {
        BankHeader(nullVar, x, mem, chipNum, bankNum, organized);
        bankNum := iter.v;
        mem := 0;
        continue;
      } else {
        var key := Key(chipNum, bankNum);
        if !FitsCell(iter.v) {
          BankBadValue(nullVar, x);
          return Failure(OverflowError);
        }
        BankValue(nullVar, x, mem, chipNum, bankNum, organized);
        ghost var before := organized;
        if key !in organized {
          organized := organized[key := [0]];
        }
        organized := organized[key := organized[key] + [iter.v]];
        assert organized == before[key := (if key in before then before[key] else [0]) + [iter.v]];
      }
    }
    assert nullVar[..|nullVar|] == nullVar;
    return Success(organized);
  }

  /** The loop state before token `x`: `mem` says which header number comes next, 0 when both are read. */
  ghost predicate BankScan(s: seq<Token>, x: nat, mem: nat, chip: nat, bank: nat, organized: map<string, seq<nat>>)
    requires x <= |s|
  {
    var open, records := Open(s[..x]), Logged(s[..x], 2);
    && (mem == if |open| < 2 then |open| + 1 else 0)
    && (|open| >= 1 ==> open[0] == chip)
    && (|open| >= 2 ==> open[..2] == [chip, bank])
    && TwoNumbers(records) && SeriesAre(records, organized) && RecordsFit(records)
  }

  lemma BankNull(s: seq<Token>, x: nat, mem: nat, chip: nat, bank: nat, organized: map<string, seq<nat>>)
    requires x < |s| && s[x].Null? && BankScan(s, x, mem, chip, bank, organized)
    ensures BankScan(s, x + 1, 1, chip, bank, organized)
  {
    Snoc(s, x);
    LoggedSnoc(s, x, 2);
  }

  lemma BankHeader(s: seq<Token>, x: nat, mem: nat, chip: nat, bank: nat, organized: map<string, seq<nat>>)
    requires x < |s| && s[x].Val? && BankScan(s, x, mem, chip, bank, organized)
    ensures mem == 1 ==> BankScan(s, x + 1, 2, s[x].v, bank, organized)
    ensures mem == 2 ==> BankScan(s, x + 1, 0, chip, s[x].v, organized)
  {
    Snoc(s, x);
    LoggedSnoc(s, x, 2);
  }

  lemma BankValue(s: seq<Token>, x: nat, mem: nat, chip: nat, bank: nat, organized: map<string, seq<nat>>)
    requires x < |s| && s[x].Val? && mem == 0 && BankScan(s, x, mem, chip, bank, organized)
    requires FitsCell(s[x].v)
    ensures var key := Key(chip, bank);
      BankScan(s, x + 1, mem, chip, bank,
        organized[key := (if key in organized then organized[key] else [0]) + [s[x].v]])
  {
    Snoc(s, x);
    LoggedSnoc(s, x, 2);
    FileKey(Logged(s[..x], 2), chip, bank, s[x].v, organized);
    var more := Logged(s[..x + 1], 2);
    assert more[..|more| - 1] == Logged(s[..x], 2);
  }

  lemma BankBadValue(s: seq<Token>, x: nat)
    requires x < |s| && s[x].Val? && |Open(s[..x])| >= 2 && !FitsCell(s[x].v)
    ensures TwoNumbers(Logged(s, 2)) && !RecordsFit(Logged(s, 2))
  {
    HeaderLength(s, 2);
    LoggedSnoc(s, x, 2);
    LoggedGrows(s, x + 1, 2);
    var bad := Logged(s[..x + 1], 2);
    assert !FitsCell(bad[|bad| - 1].value);
    UnfitPrefix(bad, Logged(s, 2));
  }

  lemma {:induction false} UnfitPrefix(bad: seq<Record>, all: seq<Record>)
    requires bad <= all
    ensures RecordsFit(all) ==> RecordsFit(bad)
  {
    if bad != all {
      UnfitPrefix(bad, all[..|all| - 1]);
    }
  }

  /* The per-chip image */

  /** `keys` lists the keys of `y` once each; the order is the one the plot sorts them in, and only its
      last key matters. */
  ghost predicate Lists(keys: seq<string>, y: map<string, seq<nat>>) {
    && Distinct(keys)
    && (forall k :: k in keys <==> k in y)
    && (forall k :: k in keys ==> IsKey(k))
  }

  function Majors(keys: seq<string>): set<string> {
    set i | 0 <= i < |keys| :: Major(keys[i])
  }

  /** The plotted length: that of the last series. */
  function DataLength(y: map<string, seq<nat>>, keys: seq<string>): nat
    requires forall k :: k in keys ==> k in y
  {
    if keys == [] then 0 else |y[keys[|keys| - 1]]|
  }

  /** Chip `c` at time `t`: the sum over the banks of the chip. */
  function BankSum(y: map<string, seq<nat>>, keys: seq<string>, c: nat, t: nat): nat
    requires forall k :: k in keys ==> k in y && t < |y[k]|
  {
    if keys == [] then 0
    else
      var k := keys[|keys| - 1];
      BankSum(y, keys[..|keys| - 1], c, t) + (if ChipOf(k) == c then y[k][t] else 0)
  }

  function ImageOf(y: map<string, seq<nat>>, keys: seq<string>, chips: nat, length: nat): (m: seq<seq<nat>>)
    requires forall k :: k in keys ==> k in y && length <= |y[k]|
    ensures |m| == chips
  {
    seq(chips, c requires 0 <= c < chips => ChipRow(y, keys, c, length))
  }

  function ChipRow(y: map<string, seq<nat>>, keys: seq<string>, c: nat, length: nat): (row: seq<nat>)
    requires forall k :: k in keys ==> k in y && length <= |y[k]|
    ensures |row| == length
  {
    seq(length, t requires 0 <= t < length => BankSum(y, keys, c, t))
  }

  /** Chip numbers index the rows, and every series reaches the plotted length. */
  ghost predicate Drawable(y: map<string, seq<nat>>, keys: seq<string>)
    requires forall k :: k in keys ==> k in y
  {
    Indexable(y, keys, |Majors(keys)|, DataLength(y, keys))
  }

  ghost predicate Indexable(y: map<string, seq<nat>>, keys: seq<string>, chips: nat, length: nat) {
    forall k :: k in keys ==> k in y && ChipOf(k) < chips && length <= |y[k]|
  }

  /** The chip numbers of the keys. */
  function Chips(keys: seq<string>): set<nat> {
    set i | 0 <= i < |keys| :: ChipOf(keys[i])
  }

  /** Chip `c` has a bank. */
  predicate HasChip(keys: seq<string>, c: nat) {
    exists i :: 0 <= i < |keys| && ChipOf(keys[i]) == c
  }

  lemma {:induction false} ChipsSnoc(keys: seq<string>, k: string)
    ensures Chips(keys + [k]) == Chips(keys) + {ChipOf(k)}
  {
    var more := keys + [k];
    forall c | c in Chips(keys) + {ChipOf(k)} ensures c in Chips(more) {
      if c in Chips(keys) {
        var i :| 0 <= i < |keys| && c == ChipOf(keys[i]);
        assert more[i] == keys[i];
      } else {
        assert more[|keys|] == k;
      }
    }
  }

  lemma {:induction false} SameMajorSameChip(a: string, b: string)
    requires IsKey(a) && IsKey(b)
    ensures Major(a) == Major(b) <==> ChipOf(a) == ChipOf(b)
  {
    var c, d :| a == Key(c, d);
    var e, f :| b == Key(e, f);
    KeyRoundTrip(c, d);
    KeyRoundTrip(e, f);
  }

  /** There are as many chips as major keys. */
  lemma {:induction false} AsManyChips(keys: seq<string>)
    requires forall i :: 0 <= i < |keys| ==> IsKey(keys[i])
    ensures |Chips(keys)| == |Majors(keys)|
  {
    if keys == [] {
      assert Chips(keys) == {} && Majors(keys) == {};
    } else {
      var front, k := keys[..|keys| - 1], keys[|keys| - 1];
      assert keys == front + [k];
      AsManyChips(front);
      ChipsSnoc(front, k);
      MajorsSnoc(front, k);
      forall i | 0 <= i < |front| ensures Major(front[i]) == Major(k) <==> ChipOf(front[i]) == ChipOf(k) {
        SameMajorSameChip(front[i], k);
      }
      assert Major(k) in Majors(front) <==> ChipOf(k) in Chips(front);
    }
  }

  function UpTo(n: nat): (s: set<nat>)
    ensures forall x: nat :: x in s <==> x < n
    ensures |s| == n
  {
    if n == 0 then {} else UpTo(n - 1) + {n - 1}
  }

  /** A set of `n` numbers has only numbers below `n` exactly when it has all of them. */
  lemma {:induction false} AllBelow(s: set<nat>, n: nat)
    requires |s| == n
    ensures (forall x :: x in s ==> x < n) <==> (forall x: nat :: x < n ==> x in s)
  {
    if forall x :: x in s ==> x < n {
      Included(s, UpTo(n));
    } else if forall x: nat :: x < n ==> x in s {
      Included(UpTo(n), s);
    }
  }

  lemma {:induction false} Included(a: set<nat>, b: set<nat>)
    requires a <= b && |a| == |b|
    ensures a == b
  {
    if x :| x in b && x !in a {
      assert a <= b - {x};
      Smaller(a, b - {x});
    }
  }

  lemma {:induction false} Smaller(a: set<nat>, b: set<nat>)
    requires a <= b
    ensures |a| <= |b|
  {
    if a != {} {
      var x :| x in a;
      Smaller(a - {x}, b - {x});
    }
  }

  lemma {:induction false} ChipsBelow(keys: seq<string>, n: nat)
    ensures (forall k :: k in keys ==> ChipOf(k) < n) <==> (forall c :: c in Chips(keys) ==> c < n)
  {
    forall k | k in keys ensures ChipOf(k) in Chips(keys) {
      var i :| 0 <= i < |keys| && keys[i] == k;
    }
    forall c | c in Chips(keys) ensures exists k :: k in keys && ChipOf(k) == c {
      var i :| 0 <= i < |keys| && c == ChipOf(keys[i]);
      assert keys[i] in keys;
    }
  }

  lemma {:induction false} HasChips(keys: seq<string>, n: nat)
    ensures (forall c: nat :: c < n ==> HasChip(keys, c)) <==> (forall c: nat :: c < n ==> c in Chips(keys))
  {
    forall c: nat ensures c in Chips(keys) <==> HasChip(keys, c) {
    }
  }

  /** Chip numbers index the rows exactly when the chips are numbered from zero without gaps. */
  lemma {:induction false} DrawableIsGapless(y: map<string, seq<nat>>, keys: seq<string>)
    requires Lists(keys, y)
    ensures Drawable(y, keys) <==>
      && (forall c: nat :: c < |Majors(keys)| ==> HasChip(keys, c))
      && (forall k :: k in keys ==> DataLength(y, keys) <= |y[k]|)
  {
    AsManyChips(keys);
    AllBelow(Chips(keys), |Majors(keys)|);
    ChipsBelow(keys, |Majors(keys)|);
    HasChips(keys, |Majors(keys)|);
  }

  /** Adds the first `length` samples of a series to a row of that length, in place. */
  method AddSeries(row: seq<nat>, data: seq<nat>) returns (r: Result<seq<nat>, LogError>)
    ensures r.Success? <==> |row| <= |data|
    ensures r.Success? ==> r.value == seq(|row|, t requires 0 <= t < |row| => row[t] + data[t])
  {
    var imageArray := row;
    for pt := 0 to |row|
      invariant |imageArray| == |row| && pt <= |data|
      invariant forall t :: 0 <= t < |row| ==> imageArray[t] == if t < pt then row[t] + data[t] else row[t]
    {
      if pt >= |data| {
        return Failure(IndexError);
      }
      imageArray := imageArray[pt := imageArray[pt] + data[pt]];
    }
    return Success(imageArray);
  }

  method CollectMajors(y: map<string, seq<nat>>, keys: seq<string>) returns (majorKeys: set<string>, dataLength: nat)
    requires forall k :: k in keys ==> k in y
    ensures majorKeys == Majors(keys) && dataLength == DataLength(y, keys)
    ensures dataLength == if keys == [] then 0 else |y[keys[|keys| - 1]]|
  {
    majorKeys, dataLength := {}, 0;
    for i := 0 to |keys|
      invariant majorKeys == Majors(keys[..i])
      invariant dataLength == DataLength(y, keys[..i])
    {
      majorKeys := majorKeys + {Major(keys[i])};
      dataLength := |y[keys[i]]|;
      assert keys[..i + 1] == keys[..i] + [keys[i]];
      MajorsSnoc(keys[..i], keys[i]);
    }
    assert keys[..|keys|] == keys;
  }

  lemma MajorsSnoc(keys: seq<string>, k: string)
    ensures Majors(keys + [k]) == Majors(keys) + {Major(k)}
  {
    var more := keys + [k];
    forall m | m in Majors(keys) + {Major(k)} ensures m in Majors(more) {
      if m in Majors(keys) {
        var i :| 0 <= i < |keys| && m == Major(keys[i]);
        assert more[i] == keys[i];
      } else {
        assert more[|keys|] == k;
      }
    }
  }

  method ChipImage(y: map<string, seq<nat>>, keys: seq<string>) returns (r: Result<seq<seq<nat>>, LogError>)
    requires Lists(keys, y)
    ensures r.Success? <==> Drawable(y, keys)
    ensures r.Success? ==> r.value == ImageOf(y, keys, |Majors(keys)|, DataLength(y, keys))
    ensures r.Success? ==> forall c :: 0 <= c < |r.value| ==>
      |r.value[c]| == if keys == [] then 0 else |y[keys[|keys| - 1]]|
  {
    var majorKeys, dataLength := CollectMajors(y, keys);
    var image := seq(|majorKeys|, s => seq(dataLength, t => 0));
    BlankImage(y, image, |majorKeys|, dataLength);
    assert keys[..0] == [];
    for i := 0 to |keys|
      invariant Drawn(y, keys[..i], image, |majorKeys|, dataLength)
    {
      var k := keys[i];
      assert keys[..i + 1] == keys[..i] + [k];
      var c := ChipOf(k);
      if c >= |image| {
        return Failure(IndexError);
      }
      DrawnRow(y, keys[..i], image, |majorKeys|, dataLength, c);
      var row := AddSeries(image[c], y[k]);
      if row.Failure? {
        return Failure(row.error);
      }
      DrawOne(y, keys[..i], k, image, |majorKeys|, dataLength, row.value);
      image := image[c := row.value];
    }
    assert keys[..|keys|] == keys;
    return Success(image);
  }

  lemma BlankImage(y: map<string, seq<nat>>, image: seq<seq<nat>>, chips: nat, length: nat)
    requires image == seq(chips, s => seq(length, t => 0))
    ensures Drawn(y, [], image, chips, length)
  {
    forall c | 0 <= c < chips ensures image[c] == ChipRow(y, [], c, length) {
    }
  }

  lemma DrawnRow(y: map<string, seq<nat>>, keys: seq<string>, image: seq<seq<nat>>, chips: nat, length: nat, c: nat)
    requires Drawn(y, keys, image, chips, length) && c < chips
    ensures |image[c]| == length
  {
  }

  ghost predicate Drawn(y: map<string, seq<nat>>, keys: seq<string>, image: seq<seq<nat>>, chips: nat, length: nat) {
    Indexable(y, keys, chips, length) && image == ImageOf(y, keys, chips, length)
  }

  lemma DrawOne(y: map<string, seq<nat>>, keys: seq<string>, k: string, image: seq<seq<nat>>, chips: nat, length: nat,
                row: seq<nat>)
    requires Drawn(y, keys, image, chips, length)
    requires k in y && length <= |y[k]| && ChipOf(k) < chips
    requires |image[ChipOf(k)]| == length
    requires row == seq(length, t requires 0 <= t < length => image[ChipOf(k)][t] + y[k][t])
    ensures Drawn(y, keys + [k], image[ChipOf(k) := row], chips, length)
  {
    var more := keys + [k];
    assert more[..|keys|] == keys;
    var drawn := image[ChipOf(k) := row];
    forall c | 0 <= c < chips ensures drawn[c] == ChipRow(y, more, c, length) {
      ChipRowSnoc(y, keys, k, c, length);
    }
  }

  lemma ChipRowSnoc(y: map<string, seq<nat>>, keys: seq<string>, k: string, c: nat, length: nat)
    requires forall j :: j in keys + [k] ==> j in y && length <= |y[j]|
    ensures var before := ChipRow(y, keys, c, length);
      ChipRow(y, keys + [k], c, length) ==
        if ChipOf(k) == c then seq(length, t requires 0 <= t < length => before[t] + y[k][t]) else before
  {
    assert (keys + [k])[..|keys|] == keys;
  }

  /** What each key's series adds to chip `c` at time `t`. */
  function Parts(y: map<string, seq<nat>>, keys: seq<string>, c: nat, t: nat): (parts: seq<nat>)
    requires forall k :: k in keys ==> k in y && t < |y[k]|
    ensures |parts| == |keys|
    ensures forall i :: 0 <= i < |keys| ==> parts[i] == if ChipOf(keys[i]) == c then y[keys[i]][t] else 0
  {
    seq(|keys|, i requires 0 <= i < |keys| => if ChipOf(keys[i]) == c then y[keys[i]][t] else 0)
  }

  /** An image cell is the sum of its chip's banks at that time, and of nothing else. */
  lemma {:induction false} CellIsBankSum(y: map<string, seq<nat>>, keys: seq<string>, c: nat, t: nat)
    requires forall k :: k in keys ==> k in y && t < |y[k]|
    ensures BankSum(y, keys, c, t) == Sum(Parts(y, keys, c, t))
  {
    if keys != [] {
      var front, k := keys[..|keys| - 1], keys[|keys| - 1];
      CellIsBankSum(y, front, c, t);
      assert Parts(y, keys, c, t) == Parts(y, front, c, t) + [if ChipOf(k) == c then y[k][t] else 0];
      SumSnoc(Parts(y, front, c, t), if ChipOf(k) == c then y[k][t] else 0);
    }
  }

  /* From the log to the image */

  /** When the series are equally long and the chips are numbered from zero without gaps, the image of
      a filed log sums to everything logged. */
  lemma {:induction false} ImageConserves(records: seq<Record>, y: map<string, seq<nat>>, keys: seq<string>)
    requires TwoNumbers(records) && SeriesAre(records, y) && Lists(keys, y)
    requires Drawable(y, keys)
    requires forall k :: k in keys ==> |y[k]| == DataLength(y, keys)
    ensures Total(ImageOf(y, keys, |Majors(keys)|, DataLength(y, keys))) == RecordSum(records)
  {
    ImageTotal(y, keys, |Majors(keys)|, DataLength(y, keys));
    HeadersCover(records, y, keys);
    FilingConserves(records, Headers(keys));
    SameSums(records, y, keys);
  }

  function Headers(keys: seq<string>): (headers: seq<seq<nat>>)
    ensures |headers| == |keys|
  {
    seq(|keys|, i requires 0 <= i < |keys| => [ChipOf(keys[i]), BankOf(keys[i])])
  }

  lemma HeadersCover(records: seq<Record>, y: map<string, seq<nat>>, keys: seq<string>)
    requires TwoNumbers(records) && SeriesAre(records, y) && Lists(keys, y)
    ensures Distinct(Headers(keys)) && Covered(records, Headers(keys))
  {
    var headers := Headers(keys);
    forall i, j | 0 <= i < j < |headers| ensures headers[i] != headers[j] {
      KeySeries(records, y, keys[i]);
      KeySeries(records, y, keys[j]);
      var a, b := keys[i], keys[j];
      assert a != b;
      assert [ChipOf(a), BankOf(a)] == [ChipOf(b), BankOf(b)] ==> ChipOf(a) == ChipOf(b) && BankOf(a) == BankOf(b);
    }
    forall i | 0 <= i < |records| ensures records[i].header in headers {
      RecordKeyListed(records, y, keys, headers, i);
    }
  }

  lemma SameSums(records: seq<Record>, y: map<string, seq<nat>>, keys: seq<string>)
    requires TwoNumbers(records) && SeriesAre(records, y) && Lists(keys, y)
    ensures KeySums(y, keys) == SeriesSums(records, Headers(keys))
  {
    forall i | 0 <= i < |keys| ensures KeySums(y, keys)[i] == SeriesSums(records, Headers(keys))[i] {
      KeySeries(records, y, keys[i]);
    }
  }

  function KeySums(y: map<string, seq<nat>>, keys: seq<string>): (sums: seq<nat>)
    requires forall k :: k in keys ==> k in y
    ensures |sums| == |keys|
  {
    seq(|keys|, i requires 0 <= i < |keys| => Sum(y[keys[i]]))
  }

  lemma KeySeries(records: seq<Record>, y: map<string, seq<nat>>, k: string)
    requires TwoNumbers(records) && SeriesAre(records, y) && k in y
    ensures Key(ChipOf(k), BankOf(k)) == k
    ensures Sum(y[k]) == Sum(Series(records, [ChipOf(k), BankOf(k)]))
  {
    assert IsKey(k);
    var chip, bank :| k == Key(chip, bank);
    KeyRoundTrip(chip, bank);
    assert SeriesIs(records, y, chip, bank);
    SumConcat([0], Series(records, [chip, bank]));
    assert Sum([0]) == Sum([]) + 0;
  }

  lemma RecordKeyListed(
    records: seq<Record>, y: map<string, seq<nat>>, keys: seq<string>, headers: seq<seq<nat>>, i: nat)
    requires TwoNumbers(records) && SeriesAre(records, y) && Lists(keys, y) && i < |records|
    requires |headers| == |keys| && forall j :: 0 <= j < |keys| ==> headers[j] == [ChipOf(keys[j]), BankOf(keys[j])]
    ensures records[i].header in headers
  {
    var header := records[i].header;
    assert header == [header[0], header[1]];
    assert SeriesIs(records, y, header[0], header[1]);
    SeriesHas(records, i);
    var k := Key(header[0], header[1]);
    assert k in keys;
    var j :| 0 <= j < |keys| && keys[j] == k;
    KeyRoundTrip(header[0], header[1]);
    assert headers[j] == header;
  }

  lemma {:induction false} SeriesHas(records: seq<Record>, i: nat)
    requires i < |records|
    ensures Series(records, records[i].header) != []
  {
    if i < |records| - 1 {
      SeriesHas(records[..|records| - 1], i);
    }
  }

  lemma {:induction false} ImageTotal(y: map<string, seq<nat>>, keys: seq<string>, chips: nat, length: nat)
    requires Indexable(y, keys, chips, length)
    requires forall k :: k in keys ==> |y[k]| == length
    ensures Total(ImageOf(y, keys, chips, length)) == Sum(KeySums(y, keys))
  {
    var image := ImageOf(y, keys, chips, length);
    if keys == [] {
      forall c | 0 <= c < chips ensures Sum(image[c]) == 0 {
        ZeroSum(image[c]);
      }
      ZeroTotal(image);
    } else {
      var front, k := keys[..|keys| - 1], keys[|keys| - 1];
      assert keys == front + [k];
      ImageTotal(y, front, chips, length);
      DrawnTotal(y, front, k, chips, length);
      assert KeySums(y, keys) == KeySums(y, front) + [Sum(y[k])];
      SumSnoc(KeySums(y, front), Sum(y[k]));
    }
  }

  /** Drawing one more series adds its sum to the image. */
  lemma {:induction false} DrawnTotal(y: map<string, seq<nat>>, keys: seq<string>, k: string, chips: nat, length: nat)
    requires Indexable(y, keys, chips, length) && Indexable(y, keys + [k], chips, length)
    requires k in y && |y[k]| == length && ChipOf(k) < chips
    ensures Total(ImageOf(y, keys + [k], chips, length)) == Total(ImageOf(y, keys, chips, length)) + Sum(y[k])
  {
    var before, image, c := ImageOf(y, keys, chips, length), ImageOf(y, keys + [k], chips, length), ChipOf(k);
    BlankOrDrawn(y, keys, k, chips, length);
    SumOfSums(before[c], y[k], image[c]);
    TotalUpdate(before, c, image[c]);
  }

  lemma BlankOrDrawn(y: map<string, seq<nat>>, keys: seq<string>, k: string, chips: nat, length: nat)
    requires Indexable(y, keys + [k], chips, length) && k in y && length <= |y[k]| && ChipOf(k) < chips
    requires Indexable(y, keys, chips, length)
    ensures var before, after, c := ImageOf(y, keys, chips, length), ImageOf(y, keys + [k], chips, length), ChipOf(k);
      && after == before[c := after[c]]
      && |before[c]| == |after[c]| == length
      && forall t :: 0 <= t < length ==> after[c][t] == before[c][t] + y[k][t]
  {
    var before, after := ImageOf(y, keys, chips, length), ImageOf(y, keys + [k], chips, length);
    forall c | 0 <= c < chips
      ensures c != ChipOf(k) ==> after[c] == before[c]
      ensures c == ChipOf(k) ==> forall t :: 0 <= t < length ==> after[c][t] == before[c][t] + y[k][t]
    {
      ChipRowSnoc(y, keys, k, c, length);
    }
  }
}
