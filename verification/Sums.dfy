/** Sums of series and of tables. */
module Sums {

  function Sum(s: seq<nat>): nat {
    if s == [] then 0 else Sum(s[..|s| - 1]) + s[|s| - 1]
  }

  lemma SumSnoc(s: seq<nat>, x: nat)
    ensures Sum(s + [x]) == Sum(s) + x
  {
    assert (s + [x])[..|s|] == s;
  }

  lemma {:induction false} SumConcat(a: seq<nat>, b: seq<nat>)
    ensures Sum(a + b) == Sum(a) + Sum(b)
  {
    if b == [] {
      assert a + b == a;
    } else {
      var front, x := b[..|b| - 1], b[|b| - 1];
      SumConcat(a, front);
      SumSnoc(a + front, x);
      assert a + b == a + front + [x];
    }
  }

  /** The sum over all rows of a table. */
  function Total(rows: seq<seq<nat>>): nat {
    if rows == [] then 0 else Total(rows[..|rows| - 1]) + Sum(rows[|rows| - 1])
  }

  lemma TotalSnoc(rows: seq<seq<nat>>, row: seq<nat>)
    ensures Total(rows + [row]) == Total(rows) + Sum(row)
  {
    assert (rows + [row])[..|rows|] == rows;
  }

  /** Appending a column adds the column's sum. */
  lemma {:induction false} TotalAppendColumn(rows: seq<seq<nat>>, column: seq<nat>, wider: seq<seq<nat>>)
    requires |rows| == |column| == |wider|
    requires forall u :: 0 <= u < |rows| ==> wider[u] == rows[u] + [column[u]]
    ensures Total(wider) == Total(rows) + Sum(column)
  {
    if |rows| > 0 {
      var u := |rows| - 1;
      TotalAppendColumn(rows[..u], column[..u], wider[..u]);
      SumSnoc(rows[u], column[u]);
    }
  }

  lemma {:induction false} TotalZero(rows: seq<seq<nat>>)
    requires forall u :: 0 <= u < |rows| ==> rows[u] == [0]
    ensures Total(rows) == 0
  {
    if |rows| > 0 {
      TotalZero(rows[..|rows| - 1]);
      assert Sum([0]) == Sum([]) + 0;
    }
  }

  lemma {:induction false} ZeroTotal(rows: seq<seq<nat>>)
    requires forall u :: 0 <= u < |rows| ==> Sum(rows[u]) == 0
    ensures Total(rows) == 0
  {
    if rows != [] {
      ZeroTotal(rows[..|rows| - 1]);
    }
  }

  /** Replacing a row changes the total by the difference of the row sums. */
  lemma {:induction false} TotalUpdate(rows: seq<seq<nat>>, c: nat, row: seq<nat>)
    requires c < |rows|
    ensures Total(rows[c := row]) + Sum(rows[c]) == Total(rows) + Sum(row)
  {
    var last := |rows| - 1;
    if c < last {
      TotalUpdate(rows[..last], c, row);
      assert rows[c := row][..last] == rows[..last][c := row];
    } else {
      assert rows[c := row][..last] == rows[..last];
    }
  }

  lemma {:induction false} SumOfSums(a: seq<nat>, b: seq<nat>, c: seq<nat>)
    requires |a| == |b| == |c|
    requires forall t :: 0 <= t < |a| ==> c[t] == a[t] + b[t]
    ensures Sum(c) == Sum(a) + Sum(b)
  {
    if a != [] {
      SumOfSums(a[..|a| - 1], b[..|b| - 1], c[..|c| - 1]);
    }
  }

  lemma {:induction false} ZeroSum(s: seq<nat>)
    requires forall i :: 0 <= i < |s| ==> s[i] == 0
    ensures Sum(s) == 0
  {
    if s != [] {
      ZeroSum(s[..|s| - 1]);
    }
  }

  lemma {:induction false} SumUpdate(s: seq<nat>, i: nat, x: nat)
    requires i < |s|
    ensures Sum(s[i := s[i] + x]) == Sum(s) + x
  {
    var last := |s| - 1;
    if i < last {
      SumUpdate(s[..last], i, x);
      assert s[i := s[i] + x][..last] == s[..last][i := s[i] + x];
    } else {
      assert s[i := s[i] + x][..last] == s[..last];
    }
  }
}
