/** Which CUDA line a PTX line came from: the .loc scan of aerialvision/lexyacctexteditor.py and its
    inversion at the head of aerialvision/organizedata.py. */
module LineMaps {
  import opened Results

  /** Per PTX line, the CUDA line of its .loc directive if it has one. */
  type Lines = seq<Option<nat>>

  /** The CUDA line in force when PTX line `i` is read: a directive takes effect on the next line. */
  function LocBefore(lines: Lines, i: nat): nat
    requires i <= |lines|
  {
    if i == 0 then 0
    else match lines[i - 1]
      case Some(l) => l
      case None => LocBefore(lines, i - 1)
  }

  /** That is the last .loc strictly before the line, or 0 if there is none. */
  lemma {:induction false} LocBeforeIsLast(lines: Lines, i: nat)
    requires i <= |lines|
    ensures (exists j: nat :: IsLastLoc(lines, i, j) && LocBefore(lines, i) == lines[j].value)
      || (LocBefore(lines, i) == 0 && forall k :: 0 <= k < i ==> lines[k].None?)
  {
    if i > 0 {
      if lines[i - 1].Some? {
        assert IsLastLoc(lines, i, i - 1);
      } else {
        LocBeforeIsLast(lines, i - 1);
        if j: nat :| IsLastLoc(lines, i - 1, j) && LocBefore(lines, i - 1) == lines[j].value {
          assert IsLastLoc(lines, i, j);
        }
      }
    }
  }

  ghost predicate IsLastLoc(lines: Lines, i: nat, j: nat)
    requires i <= |lines|
  {
    j < i && lines[j].Some? && forall k :: j < k < i ==> lines[k].None?
  }

  /** The PTX lines before `n` that belong to CUDA line `l`, in order. */
  function LinesOf(lines: Lines, l: nat, n: nat): seq<nat>
    requires n <= |lines|
  {
    if n == 0 then []
    else if LocBefore(lines, n - 1) == l then LinesOf(lines, l, n - 1) + [n - 1]
    else LinesOf(lines, l, n - 1)
  }

  ghost predicate IsScan(lines: Lines, n: nat, m: map<nat, seq<nat>>)
    requires n <= |lines|
  {
    forall l :: if LinesOf(lines, l, n) == [] then l !in m else l in m && m[l] == LinesOf(lines, l, n)
  }

  method PtxToCudaMapping(lines: Lines) returns (m: map<nat, seq<nat>>)
    ensures IsScan(lines, |lines|, m)
  {
    m := map[];
    var loc := 0;
    for count := 0 to |lines|
      invariant loc == LocBefore(lines, count)
      invariant IsScan(lines, count, m)
    {
      if loc in m {
        m := m[loc := m[loc] + [count]];
      } else {
        m := m[loc := []];
        m := m[loc := m[loc] + [count]];
      }
      if lines[count].Some? {
        loc := lines[count].value;
      }
    }
  }

  lemma {:induction false} LinesOfHolds(lines: Lines, l: nat, n: nat, i: nat)
    requires n <= |lines|
    ensures i in LinesOf(lines, l, n) <==> i < n && LocBefore(lines, i) == l
  {
    if n > 0 {
      LinesOfHolds(lines, l, n - 1, i);
    }
  }

  lemma {:induction false} LinesOfSorted(lines: Lines, l: nat, n: nat)
    requires n <= |lines|
    ensures forall a, b :: 0 <= a < b < |LinesOf(lines, l, n)| ==> LinesOf(lines, l, n)[a] < LinesOf(lines, l, n)[b] < n
    ensures forall a :: 0 <= a < |LinesOf(lines, l, n)| ==> LinesOf(lines, l, n)[a] < n
  {
    if n > 0 {
      LinesOfSorted(lines, l, n - 1);
    }
  }

  /** Every PTX line is in exactly one list of the scan, and there once. */
  lemma {:induction false} ScanPartitions(lines: Lines, m: map<nat, seq<nat>>, i: nat, l: nat)
    requires IsScan(lines, |lines|, m)
    ensures l in m && i in m[l] <==> i < |lines| && l == LocBefore(lines, i)
    ensures l in m ==> forall a, b :: 0 <= a < b < |m[l]| ==> m[l][a] < m[l][b]
  {
    LinesOfHolds(lines, l, |lines|, i);
    LinesOfSorted(lines, l, |lines|);
  }

  /** `newMap` sends PTX lines up to `maxStats` back to a CUDA line that lists them. */
  ghost predicate Inverts(m: map<nat, seq<nat>>, maxStats: nat, newMap: map<nat, nat>) {
    && (forall p :: p in newMap ==> p <= maxStats && newMap[p] in m && p in m[newMap[p]])
    && (forall l, p :: l in m && p in m[l] && p <= maxStats ==> p in newMap)
  }

  /** {CUDA line: [PTX lines]} to {PTX line: CUDA line}; the CUDA lines are visited in any order. */
  method InvertMapping(m: map<nat, seq<nat>>, maxStats: nat) returns (newMap: map<nat, nat>)
    ensures Inverts(m, maxStats, newMap)
  {
    newMap := map[];
    var todo := m.Keys;
    while todo != {}
      invariant todo <= m.Keys
      invariant forall p :: p in newMap ==> newMap[p] in m && p in m[newMap[p]]
      invariant forall l, p :: l in m && l !in todo && p in m[l] ==> p in newMap
    {
      var lines :| lines in todo;
      for k := 0 to |m[lines]|
        invariant forall p :: p in newMap ==> newMap[p] in m && p in m[newMap[p]]
        invariant forall l, p :: l in m && l !in todo && p in m[l] ==> p in newMap
        invariant forall j :: 0 <= j < k ==> m[lines][j] in newMap
      {
        newMap := newMap[m[lines][k] := lines];
      }
      todo := todo - {lines};
    }
    newMap := DropPast(newMap, maxStats);
  }

  /** Marks the PTX lines past the end of the statistics, then deletes them. */
  method DropPast(newMap: map<nat, nat>, maxStats: nat) returns (r: map<nat, nat>)
    ensures r == map p | p in newMap && p <= maxStats :: newMap[p]
  {
    var markForDel := {};
    var todo := newMap.Keys;
    while todo != {}
      invariant todo <= newMap.Keys
      invariant markForDel == set p | p in newMap.Keys - todo && p > maxStats
    {
      var ptxLine :| ptxLine in todo;
      if ptxLine > maxStats {
        markForDel := markForDel + {ptxLine};
      }
      todo := todo - {ptxLine};
    }
    r := newMap - markForDel;
  }

  /** The map the scan stands for: each PTX line up to `maxStats` to its CUDA line. */
  function LineMap(lines: Lines, maxStats: nat): map<nat, nat> {
    map p | 0 <= p < |lines| && p <= maxStats :: LocBefore(lines, p)
  }

  /** Inverting a scan loses nothing and does not depend on the order the CUDA lines are visited in. */
  lemma {:induction false} InversionLossless(lines: Lines, m: map<nat, seq<nat>>, maxStats: nat, newMap: map<nat, nat>)
    requires IsScan(lines, |lines|, m) && Inverts(m, maxStats, newMap)
    ensures newMap == LineMap(lines, maxStats)
  {
    forall p: nat
      ensures p in newMap <==> p in LineMap(lines, maxStats)
      ensures p in newMap ==> newMap[p] == LocBefore(lines, p)
    {
      if p in newMap {
        ScanPartitions(lines, m, p, newMap[p]);
      }
      if p < |lines| {
        ScanPartitions(lines, m, p, LocBefore(lines, p));
      }
    }
  }
}
