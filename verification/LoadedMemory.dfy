/** What loading one file name after the other leaves in device memory: every load writes the initialisers
    of the whole table again (libcuda/cuda_runtime_api.cc). */
module LoadedMemory {
  import opened Results
  import opened DeviceMemory
  import opened SymbolTables
  import opened FatBinary

  /** All initialiser writes so far. */
  function History(loads: seq<Load>): seq<Chunk> {
    if loads == [] then [] else History(loads[..|loads| - 1]) + TableWrites(loads[|loads| - 1].table)
  }

  /** Memory is what it was at the start with the writes of all loads done. */
  ghost predicate MemoryHolds(initial: Bytes, loads: seq<Load>, bytes: Bytes) {
    Written(initial, History(loads), bytes)
  }

  lemma {:induction false} LoadKeepsMemory(initial: Bytes, loads: seq<Load>, before: Bytes, load: Load, after: Bytes)
    requires MemoryHolds(initial, loads, before) && Written(before, TableWrites(load.table), after)
    ensures MemoryHolds(initial, loads + [load], after)
  {
    assert (loads + [load])[..|loads|] == loads;
    WrittenTrans(initial, History(loads), before, TableWrites(load.table), after);
  }

  /** A table's variables, with or without initialiser. */
  function Variables(tab: Table): seq<Symbol> {
    tab.globals + tab.consts
  }

  lemma {:induction false} WritesAreVariables(tab: Table)
    requires TableInv(tab)
    ensures TableWrites(tab) == ChunksAll(Variables(tab))
  {
    AllAreConstants(tab.consts);
    ChunksConcat(tab.globals, tab.consts);
  }

  /** No load so far had a table placed past the 32-bit address space. */
  ghost predicate NoLoadWraps(loads: seq<Load>) {
    forall k :: 0 <= k < |loads| ==> NoneWraps(Variables(loads[k].table))
  }

  /** No load so far had an initialiser on byte `a`. */
  ghost predicate NeverCovered(loads: seq<Load>, a: nat) {
    forall k :: 0 <= k < |loads| ==> Uncovered(Variables(loads[k].table), a)
  }

  lemma {:induction false} HistoryMisses(loads: seq<Load>, a: nat)
    requires NoLoadWraps(loads) && NeverCovered(loads, a)
    requires forall k :: 0 <= k < |loads| ==> TableInv(loads[k].table)
    ensures forall i :: 0 <= i < |History(loads)| ==> !Hits(History(loads)[i], a)
  {
    if loads != [] {
      var tab := loads[|loads| - 1].table;
      HistoryMisses(loads[..|loads| - 1], a);
      WritesAreVariables(tab);
      AllMiss(Variables(tab), a);
    }
  }

  ghost predicate AllReadable(bytes: Bytes, symbols: seq<Symbol>) {
    forall n, j :: 0 <= n < |symbols| && 0 <= j < |symbols[n].initializer| ==> ElementReadable(bytes, symbols[n], j)
  }

  /** In every reachable state: if the initialisers of the table as it is now are disjoint, each of them is
      readable in its place, whichever load it came with and whatever earlier loads wrote; and every byte on
      which no load so far had an initialiser is as at the start. */
  lemma {:induction false} LoadedInitialisersReadable(initial: Bytes, st: Api, bytes: Bytes)
    requires CacheInv(st) && MemoryHolds(initial, st.loads, bytes)
    ensures Disjoint(Variables(st.table)) && NoneWraps(Variables(st.table)) ==> AllReadable(bytes, Variables(st.table))
    ensures NoLoadWraps(st.loads) ==>
      forall a: nat :: NeverCovered(st.loads, a) ==> Read(bytes, a) == Read(initial, a)
  {
    if Disjoint(Variables(st.table)) && NoneWraps(Variables(st.table)) {
      LastLoadReadable(initial, st, bytes);
    }
    if NoLoadWraps(st.loads) {
      forall a: nat | NeverCovered(st.loads, a) ensures Read(bytes, a) == Read(initial, a) {
        HistoryMisses(st.loads, a);
        ReadMiss(initial, History(st.loads), a);
      }
    }
  }

  lemma {:induction false} LastLoadReadable(initial: Bytes, st: Api, bytes: Bytes)
    requires CacheInv(st) && MemoryHolds(initial, st.loads, bytes)
    requires Disjoint(Variables(st.table)) && NoneWraps(Variables(st.table))
    ensures AllReadable(bytes, Variables(st.table))
  {
    if st.loads != [] {
      var all, front := Variables(st.table), st.loads[..|st.loads| - 1];
      WritesAreVariables(st.table);
      forall n, j | 0 <= n < |all| && 0 <= j < |all[n].initializer| ensures ElementReadable(bytes, all[n], j) {
        ReadElement(initial, History(front), all, bytes, n, j);
      }
    }
  }

  /* When initialisers fit */

  /** Every table so far kept its initialisers within the bytes reserved. */
  ghost predicate AllFit(loads: seq<Load>) {
    forall k :: 0 <= k < |loads| ==> Fits(loads[k].table)
  }

  lemma {:induction false} UnreservedUncovered(tab: Table, a: nat)
    requires Fits(tab) && !ReservedIn(tab, a)
    ensures Uncovered(Variables(tab), a)
  {
    forall i | 0 <= i < |Variables(tab)| ensures !Covers(Variables(tab)[i], a) {
      if i < |tab.globals| {
        assert Variables(tab)[i] == tab.globals[i];
      } else {
        assert Variables(tab)[i] == tab.consts[i - |tab.globals|];
      }
    }
  }

  lemma {:induction false} GrowsFromItself(tab: Table)
    ensures Grows(tab, tab)
  {
  }

  /** Each load's table is of an earlier stage of the table there is now. */
  lemma {:induction false} LoadGrows(st: Api, k: nat)
    requires CacheInv(st) && k < |st.loads|
    ensures TableInv(st.loads[k].table) && Grows(st.loads[k].table, st.table)
  {
    GrowsFromItself(st.table);
  }

  lemma {:induction false} FittingLoadsStayBelow(st: Api)
    requires CacheInv(st) && AllFit(st.loads) && st.table.next < TWO_TO_32
    ensures NoLoadWraps(st.loads)
  {
    forall k | 0 <= k < |st.loads| ensures NoneWraps(Variables(st.loads[k].table)) {
      LoadGrows(st, k);
      TablePlacesDisjoint(st.loads[k].table);
    }
  }

  /** The globals, or the constants. */
  function VariablesOf(tab: Table, isConst: bool): seq<Symbol> {
    if isConst then tab.consts else tab.globals
  }

  /** Byte `a` is reserved for variable `n` of the globals or of the constants. */
  predicate IsReserved(tab: Table, isConst: bool, n: nat, a: nat) {
    var l := VariablesOf(tab, isConst);
    n < |l| && l[n].address <= a < l[n].address + l[n].reserved
  }

  /** Variable `n` of the globals or of the constants has its initialiser on byte `a`. */
  predicate IsCovered(tab: Table, isConst: bool, n: nat, a: nat) {
    var l := VariablesOf(tab, isConst);
    n < |l| && Covers(l[n], a)
  }

  /** At every stage of a table, only the variable a byte is reserved for can have its initialiser there. */
  lemma {:induction false} OnlyItsOwn(tab: Table, last: Table, isConst: bool, n: nat, a: nat, other: bool, i: nat)
    requires Fits(tab) && Grows(tab, last) && TableInv(last)
    requires IsReserved(last, isConst, n, a) && IsCovered(tab, other, i, a)
    ensures other == isConst && i == n
  {
    var s, v := VariablesOf(last, other)[i], VariablesOf(last, isConst)[n];
    assert SameSymbol(VariablesOf(tab, other)[i], s);
    assert other != isConst || i != n ==> Independent(s, v) || Independent(v, s);
  }

  lemma {:induction false} ByteOfOneVariable(tab: Table, last: Table, isConst: bool, n: nat, a: nat)
    requires Fits(tab) && Grows(tab, last) && TableInv(last) && IsReserved(last, isConst, n, a)
    ensures Uncovered(Variables(tab), a) <==> !IsCovered(tab, isConst, n, a)
  {
    var all, g := Variables(tab), |tab.globals|;
    if IsCovered(tab, isConst, n, a) {
      assert Covers(all[if isConst then g + n else n], a);
    } else {
      forall i | 0 <= i < |all| ensures !Covers(all[i], a) {
        if Covers(all[i], a) {
          var other := i >= g;
          assert IsCovered(tab, other, if other then i - g else i, a);
          OnlyItsOwn(tab, last, isConst, n, a, other, if other then i - g else i);
        }
      }
    }
  }

  /** In every reachable state whose initialisers fit the bytes reserved for them: all of them are readable,
      every byte reserved for no variable is as at the start, and so is every byte reserved for a variable
      without initialiser. */
  lemma {:induction false} FittingInitialisersReadable(initial: Bytes, st: Api, bytes: Bytes)
    requires CacheInv(st) && MemoryHolds(initial, st.loads, bytes)
    requires AllFit(st.loads) && st.table.next < TWO_TO_32
    ensures AllReadable(bytes, Variables(st.table))
    ensures forall a: nat :: !ReservedIn(st.table, a) ==> Read(bytes, a) == Read(initial, a)
    ensures forall isConst, n: nat, a: nat ::
      IsReserved(st.table, isConst, n, a) && VariablesOf(st.table, isConst)[n].initializer == [] ==>
      Read(bytes, a) == Read(initial, a)
  {
    FittingLoadsStayBelow(st);
    LoadedInitialisersReadable(initial, st, bytes);
    if st.loads != [] {
      TablePlacesDisjoint(st.table);
    }
    forall a: nat | !ReservedIn(st.table, a) ensures NeverCovered(st.loads, a) {
      forall k | 0 <= k < |st.loads| ensures Uncovered(Variables(st.loads[k].table), a) {
        LoadGrows(st, k);
        if ReservedIn(st.loads[k].table, a) {
          GrowthKeepsReserved(st.loads[k].table, st.table, a);
        }
        UnreservedUncovered(st.loads[k].table, a);
      }
    }
    forall isConst, n: nat, a: nat
      | IsReserved(st.table, isConst, n, a) && VariablesOf(st.table, isConst)[n].initializer == []
      ensures NeverCovered(st.loads, a)
    {
      SilentNeverCovered(st, isConst, n, a);
    }
  }

  /** A variable without initialiser never had one. */
  lemma {:induction false} SilentNeverCovered(st: Api, isConst: bool, n: nat, a: nat)
    requires CacheInv(st) && AllFit(st.loads)
    requires IsReserved(st.table, isConst, n, a) && VariablesOf(st.table, isConst)[n].initializer == []
    ensures NeverCovered(st.loads, a)
  {
    forall k | 0 <= k < |st.loads| ensures Uncovered(Variables(st.loads[k].table), a) {
      var tab := st.loads[k].table;
      LoadGrows(st, k);
      ByteOfOneVariable(tab, st.table, isConst, n, a);
      if n < |VariablesOf(tab, isConst)| {
        assert SameSymbol(VariablesOf(tab, isConst)[n], VariablesOf(st.table, isConst)[n]);
      }
    }
  }

  /* How often an initialiser is written */

  lemma {:induction false} ChunkAt(s: Symbol, j: nat, i: nat)
    requires i < j <= |s.initializer|
    ensures Chunks(s, j)[i] == ElementChunk(s, i)
  {
    if i < j - 1 {
      ChunkAt(s, j - 1, i);
    }
  }

  lemma {:induction false} ChunkIn(symbols: seq<Symbol>, n: nat, i: nat)
    requires n < |symbols| && i < |symbols[n].initializer|
    ensures ElementChunk(symbols[n], i) in ChunksAll(symbols)
  {
    var front, last := symbols[..|symbols| - 1], symbols[|symbols| - 1];
    if n < |front| {
      ChunkIn(front, n, i);
    } else {
      ChunkAt(last, |last.initializer|, i);
      assert ChunksAll(symbols)[|ChunksAll(front)| + i] == ElementChunk(last, i);
    }
  }

  /** A load writes every element of every initialiser its table has, old or new. */
  lemma {:induction false} LoadWritesWholeTable(tab: Table, n: nat, i: nat)
    requires TableInv(tab) && n < |Variables(tab)| && i < |Variables(tab)[n].initializer|
    ensures ElementChunk(Variables(tab)[n], i) in TableWrites(tab)
  {
    WritesAreVariables(tab);
    ChunkIn(Variables(tab), n, i);
  }

  /** The number of loads that write an initialiser of `name`. */
  ghost function TimesWritten(loads: seq<Load>, name: string): nat {
    if loads == [] then 0
    else
      TimesWritten(loads[..|loads| - 1], name)
        + if HasInitializer(loads[|loads| - 1].table, name) then 1 else 0
  }

  /** Load `k` is the first whose table has an initialiser for `name`. */
  ghost predicate FirstInitialisedBy(loads: seq<Load>, k: nat, name: string) {
    && k < |loads| && HasInitializer(loads[k].table, name)
    && forall i :: 0 <= i < k ==> !HasInitializer(loads[i].table, name)
  }

  lemma {:induction false} NeverWritten(loads: seq<Load>, name: string)
    requires forall i :: 0 <= i < |loads| ==> !HasInitializer(loads[i].table, name)
    ensures TimesWritten(loads, name) == 0
  {
    if loads != [] {
      NeverWritten(loads[..|loads| - 1], name);
    }
  }

  lemma {:induction false} WrittenFromThenOn(loads: seq<Load>, k: nat, name: string)
    requires LoadsInv(loads) && FirstInitialisedBy(loads, k, name)
    ensures TimesWritten(loads, name) == |loads| - k
  {
    var front, last := loads[..|loads| - 1], loads[|loads| - 1];
    if k < |front| {
      WrittenFromThenOn(front, k, name);
      InitializerStays(loads[k].table, last.table, name);
    } else {
      NeverWritten(front, name);
    }
  }

  /** An initialiser is written by the load that brings it and by every later one: it is written once exactly
      when no file name is loaded after the one that brought it. */
  lemma {:induction false} WrittenOnceExactly(st: Api, k: nat, name: string)
    requires CacheInv(st) && FirstInitialisedBy(st.loads, k, name)
    ensures TimesWritten(st.loads, name) == |st.loads| - k
    ensures TimesWritten(st.loads, name) == 1 <==> forall f :: f in st.loaded ==> LoadedIn(st.loads[..k + 1], f)
  {
    WrittenFromThenOn(st.loads, k, name);
    NoneAfter(st, k);
  }

  lemma {:induction false} NoneAfter(st: Api, k: nat)
    requires CacheInv(st) && k < |st.loads|
    ensures k + 1 == |st.loads| <==> forall f :: f in st.loaded ==> LoadedIn(st.loads[..k + 1], f)
  {
    var upTo := st.loads[..k + 1];
    if k + 1 == |st.loads| {
      assert upTo == st.loads;
    } else {
      var last := st.loads[|st.loads| - 1];
      assert LoadedIn(st.loads, last.name);
      assert last.name in st.loaded;
      assert !LoadedIn(upTo, last.name);
    }
  }

  /* How often a byte is written */

  /** The number of writes that hit byte `a`. */
  function HitCount(writes: seq<Chunk>, a: nat): nat {
    if writes == [] then 0
    else HitCount(writes[..|writes| - 1], a) + if Hits(writes[|writes| - 1], a) then 1 else 0
  }

  lemma {:induction false} HitCountConcat(x: seq<Chunk>, y: seq<Chunk>, a: nat)
    ensures HitCount(x + y, a) == HitCount(x, a) + HitCount(y, a)
  {
    if y == [] {
      assert x + y == x;
    } else {
      HitCountConcat(x, y[..|y| - 1], a);
      assert (x + y)[..|x + y| - 1] == x + y[..|y| - 1];
    }
  }

  lemma {:induction false} SymbolHits(s: Symbol, n: nat, a: nat)
    requires n <= |s.initializer| && NoWrap(s)
    ensures HitCount(Chunks(s, n), a) == if s.address <= a < s.address + s.Offset(n) then 1 else 0
  {
    if n > 0 {
      SymbolHits(s, n - 1, a);
      HitCountConcat(Chunks(s, n - 1), [ElementChunk(s, n - 1)], a);
      OneHit(ElementChunk(s, n - 1), a);
      ChunkPlace(s, n, n - 1);
    }
  }

  lemma {:induction false} OneHit(c: Chunk, a: nat)
    ensures HitCount([c], a) == if Hits(c, a) then 1 else 0
  {
    assert [c][..0] == [];
    assert HitCount([], a) == 0;
  }

  /** One more symbol, disjoint from the others. */
  lemma {:induction false} UncoveredSnoc(symbols: seq<Symbol>, s: Symbol, a: nat)
    requires Disjoint(symbols + [s]) && NoneWraps(symbols + [s])
    ensures Disjoint(symbols) && NoneWraps(symbols) && NoWrap(s)
    ensures Uncovered(symbols + [s], a) <==> Uncovered(symbols, a) && !Covers(s, a)
    ensures Covers(s, a) ==> Uncovered(symbols, a)
  {
    var all := symbols + [s];
    assert all[|symbols|] == s;
    forall i | 0 <= i < |symbols| ensures all[i] == symbols[i] && (Covers(all[i], a) ==> !Covers(s, a)) {
    }
  }

  /** Disjoint initialisers write each of their bytes once and no other byte. */
  lemma {:induction false} TableHits(symbols: seq<Symbol>, a: nat)
    requires Disjoint(symbols) && NoneWraps(symbols)
    ensures HitCount(ChunksAll(symbols), a) == if Uncovered(symbols, a) then 0 else 1
  {
    if symbols != [] {
      var front, last := symbols[..|symbols| - 1], symbols[|symbols| - 1];
      assert symbols == front + [last];
      UncoveredSnoc(front, last, a);
      TableHits(front, a);
      SymbolHits(last, |last.initializer|, a);
      HitCountConcat(ChunksAll(front), Chunks(last, |last.initializer|), a);
    }
  }

  /** The number of loads whose table has an initialiser on byte `a`. */
  ghost function CoveringLoads(loads: seq<Load>, a: nat): nat {
    if loads == [] then 0
    else
      CoveringLoads(loads[..|loads| - 1], a)
        + if Uncovered(Variables(loads[|loads| - 1].table), a) then 0 else 1
  }

  ghost predicate AllDisjoint(loads: seq<Load>) {
    forall k :: 0 <= k < |loads| ==>
      TableInv(loads[k].table) && Disjoint(Variables(loads[k].table)) && NoneWraps(Variables(loads[k].table))
  }

  /** Each byte is written once by each load whose table has an initialiser there. */
  lemma {:induction false} ByteWrittenPerLoad(loads: seq<Load>, a: nat)
    requires AllDisjoint(loads)
    ensures HitCount(History(loads), a) == CoveringLoads(loads, a)
  {
    if loads != [] {
      var front, tab := loads[..|loads| - 1], loads[|loads| - 1].table;
      ByteWrittenPerLoad(front, a);
      HitCountConcat(History(front), TableWrites(tab), a);
      WritesAreVariables(tab);
      TableHits(Variables(tab), a);
    }
  }

  lemma {:induction false} FittingAllDisjoint(st: Api)
    requires CacheInv(st) && AllFit(st.loads) && st.table.next < TWO_TO_32
    ensures AllDisjoint(st.loads)
  {
    forall k | 0 <= k < |st.loads|
      ensures TableInv(st.loads[k].table)
        && Disjoint(Variables(st.loads[k].table)) && NoneWraps(Variables(st.loads[k].table))
    {
      LoadGrows(st, k);
      TablePlacesDisjoint(st.loads[k].table);
    }
  }

  /** At this stage variable `n` of the globals or of the constants has an element `j`. */
  predicate HasElement(tab: Table, isConst: bool, n: nat, j: nat) {
    var l := VariablesOf(tab, isConst);
    n < |l| && j < |l[n].initializer|
  }

  /** Byte `a` is one of element `j` of variable `n`, within what is reserved for it. */
  predicate IsElementByte(tab: Table, isConst: bool, n: nat, j: nat, a: nat) {
    && IsReserved(tab, isConst, n, a)
    && var v := VariablesOf(tab, isConst)[n];
       v.address + v.Offset(j) <= a < v.address + v.Offset(j) + v.Width()
  }

  lemma {:induction false} SameOffset(s: Symbol, t: Symbol, j: nat)
    requires s.bits == t.bits
    ensures s.Offset(j) == t.Offset(j)
  {
    if j > 0 {
      SameOffset(s, t, j - 1);
    }
  }

  lemma {:induction false} CoveredIfHasElement(tab: Table, last: Table, isConst: bool, n: nat, j: nat, a: nat)
    requires Grows(tab, last) && IsElementByte(last, isConst, n, j, a)
    ensures IsCovered(tab, isConst, n, a) <==> HasElement(tab, isConst, n, j)
  {
    if n < |VariablesOf(tab, isConst)| {
      var s, v := VariablesOf(tab, isConst)[n], VariablesOf(last, isConst)[n];
      assert SameSymbol(s, v);
      SameOffset(s, v, j);
      if j < |s.initializer| {
        OffsetMonotone(s, j, |s.initializer|);
      } else {
        OffsetMonotone(s, |s.initializer|, j);
      }
    }
  }

  /** The number of loads whose table has element `j` of the variable. */
  ghost function LoadsWithElement(loads: seq<Load>, isConst: bool, n: nat, j: nat): nat {
    if loads == [] then 0
    else
      LoadsWithElement(loads[..|loads| - 1], isConst, n, j)
        + if HasElement(loads[|loads| - 1].table, isConst, n, j) then 1 else 0
  }

  lemma {:induction false} CountsAgree(loads: seq<Load>, last: Table, isConst: bool, n: nat, j: nat, a: nat)
    requires AllFit(loads) && TableInv(last) && IsElementByte(last, isConst, n, j, a)
    requires forall k :: 0 <= k < |loads| ==> Grows(loads[k].table, last)
    ensures CoveringLoads(loads, a) == LoadsWithElement(loads, isConst, n, j)
  {
    if loads != [] {
      var tab := loads[|loads| - 1].table;
      CountsAgree(loads[..|loads| - 1], last, isConst, n, j, a);
      ByteOfOneVariable(tab, last, isConst, n, a);
      CoveredIfHasElement(tab, last, isConst, n, j, a);
    }
  }

  /** Every byte of an element of a variable is written exactly once by each load at which the variable has
      that element, and by no other. */
  lemma {:induction false} ElementWrittenPerLoad(st: Api, isConst: bool, n: nat, j: nat, a: nat)
    requires CacheInv(st) && AllFit(st.loads) && st.table.next < TWO_TO_32
    requires IsElementByte(st.table, isConst, n, j, a)
    ensures HitCount(History(st.loads), a) == LoadsWithElement(st.loads, isConst, n, j)
  {
    FittingAllDisjoint(st);
    ByteWrittenPerLoad(st.loads, a);
    forall k | 0 <= k < |st.loads| ensures Grows(st.loads[k].table, st.table) {
      LoadGrows(st, k);
    }
    if st.loads != [] {
      LoadGrows(st, |st.loads| - 1);
      CountsAgree(st.loads, st.table, isConst, n, j, a);
    }
  }

  /** Load `k` brought the element, and it has been there since. */
  ghost predicate ThereSince(loads: seq<Load>, k: nat, isConst: bool, n: nat, j: nat) {
    k < |loads| && forall i :: 0 <= i < |loads| ==> (HasElement(loads[i].table, isConst, n, j) <==> k <= i)
  }

  lemma {:induction false} LoadsSince(loads: seq<Load>, k: nat, isConst: bool, n: nat, j: nat)
    requires k <= |loads|
    requires forall i :: 0 <= i < |loads| ==> (HasElement(loads[i].table, isConst, n, j) <==> k <= i)
    ensures LoadsWithElement(loads, isConst, n, j) == |loads| - k
  {
    if loads != [] {
      LoadsSince(loads[..|loads| - 1], if k < |loads| then k else k - 1, isConst, n, j);
    }
  }

  /** A byte of an element there since load `k` is written by that load and once more by each later one: it is
      written once exactly when no file name is loaded after the one that brought it. */
  lemma {:induction false} ElementWrittenOnceExactly(st: Api, k: nat, isConst: bool, n: nat, j: nat, a: nat)
    requires CacheInv(st) && AllFit(st.loads) && st.table.next < TWO_TO_32
    requires IsElementByte(st.table, isConst, n, j, a) && ThereSince(st.loads, k, isConst, n, j)
    ensures HitCount(History(st.loads), a) == |st.loads| - k
    ensures HitCount(History(st.loads), a) == 1 <==> forall f :: f in st.loaded ==> LoadedIn(st.loads[..k + 1], f)
  {
    ElementWrittenPerLoad(st, isConst, n, j, a);
    LoadsSince(st.loads, k, isConst, n, j);
    NoneAfter(st, k);
  }

  /** Two file names, one variable: loading the second name writes the variable's initialiser again. */
  lemma {:induction false} SecondNameWritesAgain(env: Config, d: Declaration)
    requires DeclaresOne(env, d) && env.preload && d.initializer != []
    requires Loadable(Declare(EMPTY, d), env.staticLimit)
    ensures var calls := [RegisterFatBinary("a"), RegisterFatBinary("b"), ParseBinary(1), ParseBinary(2)];
      var end := Run(env, Fresh([], [], map[]), calls);
      && end.Success? && |end.value.loads| == 2 && end.value.loaded == {"a", "b"}
      && TimesWritten(end.value.loads, d.name) == 2
  {
    var start, tab := Fresh([], [], map[]), Declare(EMPTY, d);
    var a, b, c := RegisterFatBinary("a"), RegisterFatBinary("b"), ParseBinary(1);
    var two := start.(nextHandle := 3, fatbinmap := map[1 := "a", 2 := "b"]);
    TwoRegistered(env);
    ParsesOne(env, two, 1, d);
    var three := Loaded(Asked(two, 1), "a", 1, tab);
    assert [a, b] + [c] == [a, b, c];
    RunSnoc(env, start, [a, b], c);
    DeclaredAgain(d);
    ParsesOne(env, three, 2, d);
    assert [a, b, c] + [ParseBinary(2)] == [a, b, c, ParseBinary(2)];
    RunSnoc(env, start, [a, b, c], ParseBinary(2));
    TwoLoads(Load("a", 1, tab), Load("b", 2, tab), d.name);
  }

  /** Each parse parses one file with one declaration. */
  predicate DeclaresOne(env: Config, d: Declaration) {
    env.versioned && |env.versionFiles| == 1 && env.parser.fromFile(env.versionFiles[0]) == [d]
  }

  lemma {:induction false} ParsesOne(env: Config, st: Api, h: nat, d: Declaration)
    requires DeclaresOne(env, d) && h !in st.registered && NameOf(st, h) !in st.loaded
    requires Loadable(Declare(st.table, d), env.staticLimit)
    ensures Step(env, st, ParseBinary(h)) == Success(Loaded(Asked(st, h), NameOf(st, h), h, Declare(st.table, d)))
  {
    OneDeclaration(st.table, env, d);
  }

  lemma {:induction false} TwoLoads(a: Load, b: Load, name: string)
    requires HasInitializer(a.table, name) && HasInitializer(b.table, name)
    ensures TimesWritten([a, b], name) == 2
  {
    assert [a, b][..1] == [a] && [a][..0] == [];
    assert TimesWritten([], name) == 0;
    assert TimesWritten([a], name) == 1;
  }

  lemma {:induction false} TwoRegistered(env: Config)
    requires env.preload
    ensures var start := Fresh([], [], map[]);
      Run(env, start, [RegisterFatBinary("a"), RegisterFatBinary("b")]) ==
      Success(start.(nextHandle := 3, fatbinmap := map[1 := "a", 2 := "b"]))
  {
    var start, a, b := Fresh([], [], map[]), RegisterFatBinary("a"), RegisterFatBinary("b");
    var one := start.(nextHandle := 2, fatbinmap := map[1 := "a"]);
    Registered(env, start, "a");
    Registered(env, one, "b");
    assert [] + [a] == [a] && [a] + [b] == [a, b];
    RunSnoc(env, start, [], a);
    RunSnoc(env, start, [a], b);
  }

  lemma {:induction false} Registered(env: Config, st: Api, f: string)
    requires env.preload
    ensures Step(env, st, RegisterFatBinary(f)) ==
      Success(st.(nextHandle := st.nextHandle + 1, fatbinmap := st.fatbinmap[st.nextHandle := f]))
  {
  }

  lemma {:induction false} OneDeclaration(tab: Table, env: Config, d: Declaration)
    requires DeclaresOne(env, d)
    ensures DeclareAll(tab, FilesDeclare(env, env.versionFiles)) == Declare(tab, d)
  {
    assert env.versionFiles[..0] == [] && [] + [d] == [d] && [d][..0] == [];
    assert FilesDeclare(env, env.versionFiles) == [d];
    assert DeclareAll(tab, []) == tab;
  }

  /** Declaring a variable once more with the same initialiser leaves the table as it is. */
  lemma {:induction false} DeclaredAgain(d: Declaration)
    requires d.initializer != []
    ensures var tab := Declare(EMPTY, d); Declare(tab, d) == tab && HasInitializer(tab, d.name)
  {
    var tab := Declare(EMPTY, d);
    var s := NewSymbol(EMPTY.next, d);
    if d.isConst {
      assert tab.consts == [s] && tab.consts[0].name == d.name;
      assert Reinitialised([s], d.name, d.initializer) == [s];
      assert Reinitialised([], d.name, d.initializer) == [];
    } else {
      assert tab.globals == [s] && tab.globals[0].name == d.name;
      assert Reinitialised([s], d.name, d.initializer) == [s];
      assert Reinitialised([], d.name, d.initializer) == [];
    }
  }
}
