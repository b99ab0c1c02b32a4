/** The one table all PTX texts are parsed into, as far as placing and initialising variables goes
    (src/cuda-sim/ptx_parser.cc, src/cuda-sim/ptx_ir.cc, src/cuda-sim/ptx_ir.h). */
module SymbolTables {
  import opened Results
  import opened Arithmetic
  import opened DeviceMemory

  /** A variable declaration as parsed: its size in bytes, which an array without dimension leaves open,
      and the width of its elements in bits. */
  datatype Declaration = Declaration(
    name: string, isConst: bool, noDim: bool, size: nat, bits: nat, initializer: seq<Operand>)

  datatype Table = Table(globals: seq<Symbol>, consts: seq<Symbol>, next: nat)

  const EMPTY := Table([], [], 0x100)

  predicate Named(l: seq<Symbol>, name: string) {
    exists i :: 0 <= i < |l| && l[i].name == name
  }

  predicate Declares(tab: Table, name: string) {
    Named(tab.globals, name) || Named(tab.consts, name)
  }

  /** The padding before an object: small powers of two are aligned to themselves, all else to 128. */
  function Pad(address: nat, size: nat): nat {
    if size == 0 then 0
    else
      var alignTo := if size in {1, 2, 4, 8, 16, 32, 64} then size else 128;
      (alignTo - address % alignTo) % alignTo
  }

  lemma {:induction false} RestIsZero(a: nat, n: nat)
    requires n > 0
    ensures (a + (n - a % n) % n) % n == 0
  {
    var q, r := a / n, a % n;
    assert a == n * q + r;
    if r == 0 {
      assert (n - r) % n == 0;
    } else {
      assert (n - r) % n == n - r;
      assert a + (n - r) == n * (q + 1);
      MultipleIsZero(n, q + 1);
    }
  }

  lemma {:induction false} MultipleIsZero(n: nat, k: nat)
    requires n > 0
    ensures n * k % n == 0
  {
    RemainderUnique(n * k, n, k, 0);
  }

  /** Padding goes to the next multiple of the alignment and no further. */
  lemma {:induction false} PadAligns(address: nat, size: nat)
    requires size > 0
    ensures var alignTo := if size in {1, 2, 4, 8, 16, 32, 64} then size else 128;
      (address + Pad(address, size)) % alignTo == 0 && Pad(address, size) < alignTo
  {
    RestIsZero(address, if size in {1, 2, 4, 8, 16, 32, 64} then size else 128);
  }

  function SizeOf(d: Declaration): nat {
    if d.noDim then 0 else d.size
  }

  /** A constant array without dimension gets no place, everything else the next one. */
  function NewSymbol(next: nat, d: Declaration): Symbol {
    if d.isConst && d.noDim then Symbol(d.name, TWO_TO_32 - 1, false, 0, true, d.bits, d.initializer)
    else Symbol(d.name, next + Pad(next, SizeOf(d)), true, SizeOf(d), d.isConst, d.bits, d.initializer)
  }

  /** The symbol of that name gets the initialiser. */
  function Reinitialised(l: seq<Symbol>, name: string, init: seq<Operand>): (m: seq<Symbol>)
    ensures |m| == |l|
  {
    seq(|l|, i requires 0 <= i < |l| => if l[i].name == name then l[i].(initializer := init) else l[i])
  }

  /** A declared name keeps its symbol and place; only an initialiser given again replaces the old one. */
  function Declare(tab: Table, d: Declaration): Table {
    if Declares(tab, d.name) then
      if d.initializer == [] then tab
      else
        tab.(globals := Reinitialised(tab.globals, d.name, d.initializer),
             consts := Reinitialised(tab.consts, d.name, d.initializer))
    else
      var s := NewSymbol(tab.next, d);
      var next := if s.placed then s.address + s.reserved else tab.next;
      if d.isConst then tab.(consts := tab.consts + [s], next := next)
      else tab.(globals := tab.globals + [s], next := next)
  }

  function DeclareAll(tab: Table, ds: seq<Declaration>): Table {
    if ds == [] then tab else Declare(DeclareAll(tab, ds[..|ds| - 1]), ds[|ds| - 1])
  }

  lemma {:induction false} DeclareConcat(tab: Table, a: seq<Declaration>, b: seq<Declaration>)
    ensures DeclareAll(tab, a + b) == DeclareAll(DeclareAll(tab, a), b)
  {
    if b == [] {
      assert a + b == a;
    } else {
      DeclareConcat(tab, a, b[..|b| - 1]);
      assert (a + b)[..|a + b| - 1] == a + b[..|b| - 1];
    }
  }

  /* Places */

  /** Different names, and reserved bytes that do not meet. */
  predicate Independent(s: Symbol, t: Symbol) {
    && s.name != t.name
    && (s.reserved == 0 || t.reserved == 0 || s.address + s.reserved <= t.address
        || t.address + t.reserved <= s.address)
  }

  ghost predicate PairwiseIndependent(l: seq<Symbol>) {
    forall i, j :: 0 <= i < j < |l| ==> Independent(l[i], l[j])
  }

  ghost predicate CrossIndependent(l: seq<Symbol>, m: seq<Symbol>) {
    forall i, j :: 0 <= i < |l| && 0 <= j < |m| ==> Independent(l[i], m[j])
  }

  /** A placed symbol ends below `next`; one without place reserves nothing. */
  predicate PlacedBelow(s: Symbol, next: nat) {
    if s.placed then s.address + s.reserved <= next else s.reserved == 0 && s.address == TWO_TO_32 - 1
  }

  ghost predicate AllPlaced(l: seq<Symbol>, isConst: bool, next: nat) {
    forall i :: 0 <= i < |l| ==> l[i].isConst == isConst && PlacedBelow(l[i], next)
  }

  /** What every table keeps: names are unique, reserved bytes are disjoint and below the next free one. */
  ghost predicate TableInv(tab: Table) {
    && PairwiseIndependent(tab.globals) && PairwiseIndependent(tab.consts)
    && CrossIndependent(tab.globals, tab.consts)
    && AllPlaced(tab.globals, false, tab.next) && AllPlaced(tab.consts, true, tab.next)
  }

  /** A new symbol is placed past all others. */
  lemma {:induction false} NewIsApart(next: nat, d: Declaration, s: Symbol)
    requires PlacedBelow(s, next) && s.name != d.name
    ensures Independent(s, NewSymbol(next, d))
    ensures var n := NewSymbol(next, d);
      PlacedBelow(n, if n.placed then n.address + n.reserved else next)
      && PlacedBelow(s, if n.placed then n.address + n.reserved else next)
  {
  }

  lemma {:induction false} AllApart(next: nat, d: Declaration, l: seq<Symbol>, isConst: bool)
    requires AllPlaced(l, isConst, next) && !Named(l, d.name)
    ensures forall i :: 0 <= i < |l| ==> Independent(l[i], NewSymbol(next, d))
    ensures var n := NewSymbol(next, d); AllPlaced(l, isConst, if n.placed then n.address + n.reserved else next)
  {
    forall i | 0 <= i < |l|
      ensures Independent(l[i], NewSymbol(next, d))
      ensures var n := NewSymbol(next, d); PlacedBelow(l[i], if n.placed then n.address + n.reserved else next)
    {
      NewIsApart(next, d, l[i]);
    }
  }

  lemma {:induction false} ReinitialisedKeepsInv(tab: Table, name: string, init: seq<Operand>)
    requires TableInv(tab)
    ensures TableInv(tab.(globals := Reinitialised(tab.globals, name, init),
                          consts := Reinitialised(tab.consts, name, init)))
  {
  }

  lemma {:induction false} DeclareKeepsInv(tab: Table, d: Declaration)
    requires TableInv(tab)
    ensures TableInv(Declare(tab, d))
  {
    if Declares(tab, d.name) {
      ReinitialisedKeepsInv(tab, d.name, d.initializer);
    } else {
      AllApart(tab.next, d, tab.globals, false);
      AllApart(tab.next, d, tab.consts, true);
    }
  }

  lemma {:induction false} DeclareAllKeepsInv(tab: Table, ds: seq<Declaration>)
    requires TableInv(tab)
    ensures TableInv(DeclareAll(tab, ds))
  {
    if ds != [] {
      DeclareAllKeepsInv(tab, ds[..|ds| - 1]);
      DeclareKeepsInv(DeclareAll(tab, ds[..|ds| - 1]), ds[|ds| - 1]);
    }
  }

  /* Growth */

  /** The same symbol, at most with another initialiser. */
  predicate SameSymbol(s: Symbol, t: Symbol) {
    t == s.(initializer := t.initializer) && (t.initializer == [] ==> s.initializer == [])
  }

  ghost predicate Extends(l: seq<Symbol>, m: seq<Symbol>) {
    |l| <= |m| && forall i :: 0 <= i < |l| ==> SameSymbol(l[i], m[i])
  }

  /** Symbols are only added at the end, and keep their places. */
  ghost predicate Grows(a: Table, b: Table) {
    Extends(a.globals, b.globals) && Extends(a.consts, b.consts) && a.next <= b.next
  }

  lemma {:induction false} DeclareGrows(tab: Table, d: Declaration)
    ensures Grows(tab, Declare(tab, d))
  {
  }

  lemma {:induction false} DeclareAllGrows(tab: Table, ds: seq<Declaration>)
    ensures Grows(tab, DeclareAll(tab, ds))
  {
    if ds != [] {
      DeclareAllGrows(tab, ds[..|ds| - 1]);
      DeclareGrows(DeclareAll(tab, ds[..|ds| - 1]), ds[|ds| - 1]);
    }
  }

  /* What a table holds, read off the declarations */

  /** Some declaration is of `name`, and the first one is `d`. */
  ghost predicate IsFirst(ds: seq<Declaration>, name: string, d: Declaration) {
    exists k :: 0 <= k < |ds| && ds[k] == d && d.name == name && NotBefore(ds, name, k)
  }

  ghost predicate NotBefore(ds: seq<Declaration>, name: string, k: nat)
    requires k < |ds|
  {
    forall i :: 0 <= i < k ==> ds[i].name != name
  }

  /** The last initialiser given to `name`. */
  function LastInitializer(ds: seq<Declaration>, name: string): seq<Operand> {
    if ds == [] then []
    else
      var d := ds[|ds| - 1];
      if d.name == name && d.initializer != [] then d.initializer else LastInitializer(ds[..|ds| - 1], name)
  }

  /** `init` is the last initialiser that is not empty among the declarations of `name`, or empty if there
      is none. */
  ghost predicate IsLastGiven(ds: seq<Declaration>, name: string, init: seq<Operand>) {
    if init == [] then forall k :: 0 <= k < |ds| && ds[k].name == name ==> ds[k].initializer == []
    else exists k :: 0 <= k < |ds| && ds[k].name == name && ds[k].initializer == init && NoneGivenAfter(ds, name, k)
  }

  ghost predicate NoneGivenAfter(ds: seq<Declaration>, name: string, k: nat) {
    forall i :: k < i < |ds| && ds[i].name == name ==> ds[i].initializer == []
  }

  lemma {:induction false} LastIsGiven(ds: seq<Declaration>, name: string)
    ensures IsLastGiven(ds, name, LastInitializer(ds, name))
  {
    if ds != [] {
      var front, d := ds[..|ds| - 1], ds[|ds| - 1];
      if d.name == name && d.initializer != [] {
        assert ds[|ds| - 1].name == name && NoneGivenAfter(ds, name, |ds| - 1);
      } else {
        LastIsGiven(front, name);
        if LastInitializer(front, name) != [] {
          var k :| 0 <= k < |front| && front[k].name == name
            && front[k].initializer == LastInitializer(front, name) && NoneGivenAfter(front, name, k);
          assert ds[k] == front[k] && NoneGivenAfter(ds, name, k);
        }
      }
    }
  }

  /** `s` is as its first declaration has it, with the last initialiser given. */
  ghost predicate AsDeclared(ds: seq<Declaration>, s: Symbol) {
    && (exists d :: IsFirst(ds, s.name, d) && s.isConst == d.isConst && s.bits == d.bits
          && s.reserved == SizeOf(d) && s.placed == !(d.isConst && d.noDim))
    && s.initializer == LastInitializer(ds, s.name) && IsLastGiven(ds, s.name, s.initializer)
  }

  ghost predicate AllAsDeclared(ds: seq<Declaration>, l: seq<Symbol>) {
    forall i :: 0 <= i < |l| ==> AsDeclared(ds, l[i])
  }

  ghost predicate Mentions(ds: seq<Declaration>, name: string) {
    exists k :: 0 <= k < |ds| && ds[k].name == name
  }

  lemma {:induction false} FirstStays(ds: seq<Declaration>, e: Declaration, name: string, d: Declaration)
    requires IsFirst(ds, name, d)
    ensures IsFirst(ds + [e], name, d)
  {
    var k :| 0 <= k < |ds| && ds[k] == d && d.name == name && NotBefore(ds, name, k);
    assert (ds + [e])[k] == d && NotBefore(ds + [e], name, k);
  }

  lemma {:induction false} FirstNow(ds: seq<Declaration>, d: Declaration)
    requires !Mentions(ds, d.name)
    ensures IsFirst(ds + [d], d.name, d)
  {
    assert (ds + [d])[|ds|] == d && NotBefore(ds + [d], d.name, |ds|);
  }

  lemma {:induction false} LastSnoc(ds: seq<Declaration>, d: Declaration, name: string)
    ensures LastInitializer(ds + [d], name) ==
      if d.name == name && d.initializer != [] then d.initializer else LastInitializer(ds, name)
  {
    assert (ds + [d])[..|ds|] == ds;
  }

  lemma {:induction false} NeverMentioned(ds: seq<Declaration>, name: string)
    requires !Mentions(ds, name)
    ensures LastInitializer(ds, name) == []
  {
    if ds != [] {
      var front := ds[..|ds| - 1];
      assert ds == front + [ds[|ds| - 1]];
      MentionsSnoc(front, ds[|ds| - 1], name);
      NeverMentioned(front, name);
    }
  }

  lemma {:induction false} MentionsSnoc(ds: seq<Declaration>, d: Declaration, name: string)
    ensures Mentions(ds + [d], name) <==> Mentions(ds, name) || d.name == name
  {
    var all := ds + [d];
    assert all[|ds|] == d;
    if k :| 0 <= k < |ds| && ds[k].name == name {
      assert all[k].name == name;
    }
  }

  /** A symbol stays as declared when another declaration comes in. */
  lemma {:induction false} StaysAsDeclared(ds: seq<Declaration>, d: Declaration, s: Symbol)
    requires AsDeclared(ds, s)
    ensures var init := if d.name == s.name && d.initializer != [] then d.initializer else s.initializer;
      AsDeclared(ds + [d], s.(initializer := init))
  {
    var e :| IsFirst(ds, s.name, e) && s.isConst == e.isConst && s.bits == e.bits
      && s.reserved == SizeOf(e) && s.placed == !(e.isConst && e.noDim);
    FirstStays(ds, d, s.name, e);
    LastSnoc(ds, d, s.name);
    LastIsGiven(ds + [d], s.name);
  }

  lemma {:induction false} NewAsDeclared(ds: seq<Declaration>, d: Declaration, next: nat)
    requires !Mentions(ds, d.name)
    ensures AsDeclared(ds + [d], NewSymbol(next, d))
  {
    FirstNow(ds, d);
    NeverMentioned(ds, d.name);
    LastSnoc(ds, d, d.name);
    LastIsGiven(ds + [d], d.name);
  }

  /** The names of a table after one more declaration. */
  lemma {:induction false} DeclaresStep(tab: Table, d: Declaration, name: string)
    ensures Declares(Declare(tab, d), name) <==> Declares(tab, name) || d.name == name
  {
    var next := Declare(tab, d);
    KeepsNames(tab.globals, next.globals, name);
    KeepsNames(tab.consts, next.consts, name);
    if !Declares(tab, d.name) {
      if d.isConst {
        assert next.consts[|tab.consts|].name == d.name;
      } else {
        assert next.globals[|tab.globals|].name == d.name;
      }
    }
  }

  lemma {:induction false} KeepsNames(l: seq<Symbol>, m: seq<Symbol>, name: string)
    requires |l| <= |m| && forall i :: 0 <= i < |l| ==> m[i].name == l[i].name
    ensures Named(l, name) ==> Named(m, name)
  {
    if i :| 0 <= i < |l| && l[i].name == name {
      assert m[i].name == name;
    }
  }

  /** Every table holds exactly the declared names, each placed and shaped by its first declaration and
      with the last initialiser it was given, by whichever text. */
  lemma {:induction false} TableAsDeclared(ds: seq<Declaration>, name: string)
    ensures var tab := DeclareAll(EMPTY, ds);
      && (Declares(tab, name) <==> Mentions(ds, name))
      && AllAsDeclared(ds, tab.globals) && AllAsDeclared(ds, tab.consts)
  {
    if ds != [] {
      var front, d := ds[..|ds| - 1], ds[|ds| - 1];
      var before, tab := DeclareAll(EMPTY, front), DeclareAll(EMPTY, ds);
      assert ds == front + [d];
      TableAsDeclared(front, name);
      TableAsDeclared(front, d.name);
      MentionsSnoc(front, d, name);
      DeclaresStep(before, d, name);
      forall i | 0 <= i < |before.globals| ensures AsDeclared(ds, tab.globals[i]) {
        StaysAsDeclared(front, d, before.globals[i]);
        KeptOrReplaced(before, d, before.globals[i]);
      }
      forall i | 0 <= i < |before.consts| ensures AsDeclared(ds, tab.consts[i]) {
        StaysAsDeclared(front, d, before.consts[i]);
        KeptOrReplaced(before, d, before.consts[i]);
      }
      if !Declares(before, d.name) {
        NewAsDeclared(front, d, before.next);
      }
    }
  }

  /** A symbol of the table that has the declared name is not new. */
  lemma {:induction false} KeptOrReplaced(tab: Table, d: Declaration, s: Symbol)
    requires s in tab.globals || s in tab.consts
    ensures d.name == s.name ==> Declares(tab, d.name)
  {
    if s in tab.globals {
      var i :| 0 <= i < |tab.globals| && tab.globals[i] == s;
      assert tab.globals[i].name == s.name;
    } else {
      var i :| 0 <= i < |tab.consts| && tab.consts[i] == s;
      assert tab.consts[i].name == s.name;
    }
  }

  /* Declaring again */

  /** `t` is `s`, with the last initialiser the declarations give its name, if they give one. */
  predicate GivenAgain(ds: seq<Declaration>, s: Symbol, t: Symbol) {
    t == if LastInitializer(ds, s.name) == [] then s else s.(initializer := LastInitializer(ds, s.name))
  }

  ghost predicate AllGivenAgain(ds: seq<Declaration>, l: seq<Symbol>, m: seq<Symbol>) {
    |m| == |l| && forall i :: 0 <= i < |l| ==> GivenAgain(ds, l[i], m[i])
  }

  lemma {:induction false} AllGivenSnoc(ds: seq<Declaration>, d: Declaration, l: seq<Symbol>, m: seq<Symbol>)
    requires AllGivenAgain(ds, l, m)
    ensures AllGivenAgain(ds + [d], l, if d.initializer == [] then m else Reinitialised(m, d.name, d.initializer))
  {
    var after := if d.initializer == [] then m else Reinitialised(m, d.name, d.initializer);
    forall i | 0 <= i < |l| ensures GivenAgain(ds + [d], l[i], after[i]) {
      assert GivenAgain(ds, l[i], m[i]);
      LastSnoc(ds, d, l[i].name);
    }
  }

  /** Declarations of names a table has already only replace initialisers. */
  lemma {:induction false} Redeclared(tab: Table, ds: seq<Declaration>)
    requires forall k :: 0 <= k < |ds| ==> Declares(tab, ds[k].name)
    ensures var again := DeclareAll(tab, ds);
      && again.next == tab.next
      && AllGivenAgain(ds, tab.globals, again.globals) && AllGivenAgain(ds, tab.consts, again.consts)
  {
    if ds != [] {
      var front, d := ds[..|ds| - 1], ds[|ds| - 1];
      Redeclared(tab, front);
      assert ds == front + [d] && ds[|ds| - 1] == d;
      var again := DeclareAll(tab, front);
      DeclareAllGrows(tab, front);
      KeepsNames(tab.globals, again.globals, d.name);
      KeepsNames(tab.consts, again.consts, d.name);
      AllGivenSnoc(front, d, tab.globals, again.globals);
      AllGivenSnoc(front, d, tab.consts, again.consts);
    }
  }

  /** Declaring everything a second time leaves the table as it is. */
  lemma {:induction false} DeclaredTwice(ds: seq<Declaration>)
    ensures DeclareAll(DeclareAll(EMPTY, ds), ds) == DeclareAll(EMPTY, ds)
  {
    var tab := DeclareAll(EMPTY, ds);
    forall k | 0 <= k < |ds| ensures Declares(tab, ds[k].name) {
      TableAsDeclared(ds, ds[k].name);
    }
    TableAsDeclared(ds, "");
    Redeclared(tab, ds);
    var again := DeclareAll(tab, ds);
    forall i | 0 <= i < |tab.globals| ensures again.globals[i] == tab.globals[i] {
      assert AsDeclared(ds, tab.globals[i]) && GivenAgain(ds, tab.globals[i], again.globals[i]);
    }
    forall i | 0 <= i < |tab.consts| ensures again.consts[i] == tab.consts[i] {
      assert AsDeclared(ds, tab.consts[i]) && GivenAgain(ds, tab.consts[i], again.consts[i]);
    }
    assert again.globals == tab.globals && again.consts == tab.consts;
  }

  /* The place of a new variable */

  /** Objects without size go anywhere, small powers of two to their multiples, all else to multiples of 128. */
  predicate Aligned(address: nat, size: nat) {
    size == 0 || (if size in {1, 2, 4, 8, 16, 32, 64} then address % size == 0 else address % 128 == 0)
  }

  /** A new variable goes to the least aligned address that is free, which leaves the first address past it as
      the next free one; a constant array without dimension takes no place. */
  ghost predicate PlacedNext(before: Table, d: Declaration, after: Table, s: Symbol) {
    && s.name == d.name && s.isConst == d.isConst && s.initializer == d.initializer
    && after.globals == (if d.isConst then before.globals else before.globals + [s])
    && after.consts == (if d.isConst then before.consts + [s] else before.consts)
    && if d.isConst && d.noDim then !s.placed && s.reserved == 0 && after.next == before.next
       else
         && s.placed && s.reserved == (if d.noDim then 0 else d.size)
         && before.next <= s.address && Aligned(s.address, s.reserved)
         && (forall a: nat :: before.next <= a < s.address ==> !Aligned(a, s.reserved))
         && after.next == s.address + s.reserved
  }

  lemma {:induction false} NewIsPlacedNext(tab: Table, d: Declaration)
    requires !Declares(tab, d.name)
    ensures PlacedNext(tab, d, Declare(tab, d), NewSymbol(tab.next, d))
  {
    var size := SizeOf(d);
    if size > 0 {
      PadAligns(tab.next, size);
      forall a: nat | tab.next <= a < tab.next + Pad(tab.next, size) ensures !Aligned(a, size) {
        NoneAlignedBetween(tab.next, size, a);
      }
    }
  }

  lemma {:induction false} NoneAlignedBetween(address: nat, size: nat, a: nat)
    requires size > 0 && address <= a < address + Pad(address, size)
    ensures !Aligned(a, size)
  {
    PadAligns(address, size);
    MultiplesApart(if size in {1, 2, 4, 8, 16, 32, 64} then size else 128, a, address + Pad(address, size));
  }

  /* Disjoint placements */

  /** Initialisers take no more than the bytes reserved. */
  ghost predicate Fits(tab: Table) {
    && (forall i :: 0 <= i < |tab.globals| ==> tab.globals[i].Size() <= tab.globals[i].reserved)
    && (forall i :: 0 <= i < |tab.consts| ==> tab.consts[i].Size() <= tab.consts[i].reserved)
  }

  lemma {:induction false} AllAreConstants(l: seq<Symbol>)
    requires forall i :: 0 <= i < |l| ==> l[i].isConst
    ensures Constants(l) == l
  {
    if l != [] {
      AllAreConstants(l[..|l| - 1]);
    }
  }

  lemma {:induction false} IndependentDisjoint(s: Symbol, t: Symbol, a: nat)
    requires Independent(s, t) && s.Size() <= s.reserved && t.Size() <= t.reserved && Covers(s, a)
    ensures !Covers(t, a)
  {
  }

  /** What a table places by itself never overlaps, as long as initialisers fit. */
  lemma {:induction false} TablePlacesDisjoint(tab: Table)
    requires TableInv(tab) && Fits(tab) && tab.next < TWO_TO_32
    ensures Constants(tab.consts) == tab.consts
    ensures Disjoint(tab.globals + tab.consts) && NoneWraps(tab.globals + tab.consts)
  {
    AllAreConstants(tab.consts);
    var all, g := tab.globals + tab.consts, |tab.globals|;
    forall i, j, a | 0 <= i < j < |all| && Covers(all[i], a) ensures !Covers(all[j], a) {
      assert Independent(all[i], all[j]) by {
        if j < g {
          assert Independent(tab.globals[i], tab.globals[j]);
        } else if i < g {
          assert Independent(tab.globals[i], tab.consts[j - g]);
        } else {
          assert Independent(tab.consts[i - g], tab.consts[j - g]);
        }
      }
      IndependentDisjoint(all[i], all[j], a);
    }
    forall i | 0 <= i < |all| ensures NoWrap(all[i]) {
      assert PlacedBelow(all[i], tab.next);
    }
  }

  /** Of two initialisers with bytes at all, one ends before the other begins. */
  predicate OneBeforeOther(s: Symbol, t: Symbol) {
    s.Size() == 0 || t.Size() == 0 || s.address + s.Size() <= t.address || t.address + t.Size() <= s.address
  }

  /** Two initialisers share no byte exactly when one ends before the other begins. */
  lemma {:induction false} ApartExactly(s: Symbol, t: Symbol)
    ensures (forall a :: Covers(s, a) ==> !Covers(t, a)) <==> OneBeforeOther(s, t)
  {
    if !OneBeforeOther(s, t) {
      var a := if s.address < t.address then t.address else s.address;
      assert Covers(s, a) && Covers(t, a);
    }
  }

  /** Placements are disjoint exactly when, of every two initialisers, one ends before the other begins. */
  lemma {:induction false} DisjointExactly(l: seq<Symbol>)
    ensures Disjoint(l) <==> forall i, j :: 0 <= i < j < |l| ==> OneBeforeOther(l[i], l[j])
  {
    forall i, j | 0 <= i < j < |l|
      ensures (forall a :: Covers(l[i], a) ==> !Covers(l[j], a)) <==> OneBeforeOther(l[i], l[j])
    {
      ApartExactly(l[i], l[j]);
    }
  }

  predicate HasSymbol(tab: Table, s: Symbol) {
    s in tab.globals || s in tab.consts
  }

  lemma {:induction false} InAt(l: seq<Symbol>, m: seq<Symbol>, s: Symbol)
    requires s in l && |l| <= |m| && forall i :: 0 <= i < |l| && l[i] == s ==> m[i] == s
    ensures s in m
  {
    var i :| 0 <= i < |l| && l[i] == s;
    assert m[i] == s;
  }

  /** Only an initialiser given again changes a symbol. */
  lemma {:induction false} DeclareKeepsSymbol(tab: Table, d: Declaration, s: Symbol)
    requires HasSymbol(tab, s) && (d.name != s.name || d.initializer == [])
    ensures HasSymbol(Declare(tab, d), s)
  {
    if s in tab.globals {
      InAt(tab.globals, Declare(tab, d).globals, s);
    } else {
      InAt(tab.consts, Declare(tab, d).consts, s);
    }
  }

  lemma {:induction false} DeclareAllKeepsSymbol(tab: Table, ds: seq<Declaration>, s: Symbol)
    requires HasSymbol(tab, s)
    requires forall i :: 0 <= i < |ds| ==> ds[i].name != s.name || ds[i].initializer == []
    ensures HasSymbol(DeclareAll(tab, ds), s)
  {
    if ds != [] {
      DeclareAllKeepsSymbol(tab, ds[..|ds| - 1], s);
      DeclareKeepsSymbol(DeclareAll(tab, ds[..|ds| - 1]), ds[|ds| - 1], s);
    }
  }

  lemma {:induction false} DeclareAddsSymbol(tab: Table, d: Declaration)
    requires !Declares(tab, d.name)
    ensures HasSymbol(Declare(tab, d), NewSymbol(tab.next, d))
  {
    if d.isConst {
      assert Declare(tab, d).consts[|tab.consts|] == NewSymbol(tab.next, d);
    } else {
      assert Declare(tab, d).globals[|tab.globals|] == NewSymbol(tab.next, d);
    }
  }

  /** The initialisers of two variables meet, whatever is declared between them, exactly when the first one
      reaches past all that is reserved up to the second and the padding before it: so does a global array
      without dimension, for which nothing is reserved, as soon as it is long enough. */
  lemma {:induction false} MeetsLaterExactly(tab: Table, d: Declaration, between: seq<Declaration>, e: Declaration)
    requires !(d.isConst && d.noDim) && !(e.isConst && e.noDim)
    requires !Declares(tab, d.name) && !Declares(DeclareAll(Declare(tab, d), between), e.name)
    requires forall i :: 0 <= i < |between| ==> between[i].name != d.name || between[i].initializer == []
    ensures var middle := DeclareAll(Declare(tab, d), between);
      var s, t, end := NewSymbol(tab.next, d), NewSymbol(middle.next, e), Declare(middle, e);
      && HasSymbol(end, s) && HasSymbol(end, t)
      && ((exists a :: Covers(s, a) && Covers(t, a)) <==>
            t.Size() > 0 && s.address + s.Size() > middle.next + Pad(middle.next, SizeOf(e)))
  {
    var middle := DeclareAll(Declare(tab, d), between);
    var s, t := NewSymbol(tab.next, d), NewSymbol(middle.next, e);
    DeclareAddsSymbol(tab, d);
    DeclareAllKeepsSymbol(Declare(tab, d), between, s);
    if e.name == s.name {
      NamedSymbol(middle, s);
    }
    DeclareKeepsSymbol(middle, e, s);
    DeclareAddsSymbol(middle, e);
    DeclareAllGrows(Declare(tab, d), between);
    ApartExactly(s, t);
  }

  lemma {:induction false} NamedSymbol(tab: Table, s: Symbol)
    requires HasSymbol(tab, s)
    ensures Declares(tab, s.name)
  {
    if s in tab.globals {
      var i :| 0 <= i < |tab.globals| && tab.globals[i] == s;
      assert tab.globals[i].name == s.name;
    } else {
      var i :| 0 <= i < |tab.consts| && tab.consts[i] == s;
      assert tab.consts[i].name == s.name;
    }
  }

  /** An array of one four-byte element without dimension, and a four-byte variable after it. */
  lemma {:induction false} OpenArrayOverlaps(init: seq<Operand>)
    requires |init| == 1
    ensures var d := Declaration("a", false, true, 0, 32, init);
      var e := Declaration("b", false, false, 4, 32, init);
      var tab := DeclareAll(EMPTY, [d, e]);
      && |tab.globals| == 2 && tab.globals[0].address == tab.globals[1].address
      && !Fits(tab) && !Disjoint(tab.globals)
  {
    var d := Declaration("a", false, true, 0, 32, init);
    var e := Declaration("b", false, false, 4, 32, init);
    assert [d, e][..1] == [d] && [d][..0] == [];
    var s, t := NewSymbol(0x100, d), NewSymbol(0x100, e);
    assert DeclareAll(EMPTY, []) == EMPTY;
    assert DeclareAll(EMPTY, [d]) == Table([s], [], 0x100);
    assert DeclareAll(EMPTY, [d, e]) == Table([s, t], [], 0x104);
    assert s.Offset(0) == 0 && s.Size() == 4 && t.Offset(0) == 0 && t.Size() == 4;
    assert Covers([s, t][0], 0x100) && Covers([s, t][1], 0x100);
  }

  /** The bytes reserved for some symbol. */
  ghost predicate Reserves(l: seq<Symbol>, a: nat) {
    exists i :: 0 <= i < |l| && l[i].address <= a < l[i].address + l[i].reserved
  }

  ghost predicate ReservedIn(tab: Table, a: nat) {
    Reserves(tab.globals, a) || Reserves(tab.consts, a)
  }

  lemma {:induction false} ReservationsStay(l: seq<Symbol>, m: seq<Symbol>, a: nat)
    requires Extends(l, m) && Reserves(l, a)
    ensures Reserves(m, a)
  {
    var i :| 0 <= i < |l| && l[i].address <= a < l[i].address + l[i].reserved;
    assert SameSymbol(l[i], m[i]);
  }

  lemma {:induction false} GrowthKeepsReserved(s: Table, t: Table, a: nat)
    requires Grows(s, t) && ReservedIn(s, a)
    ensures ReservedIn(t, a)
  {
    if Reserves(s.globals, a) {
      ReservationsStay(s.globals, t.globals, a);
    } else {
      ReservationsStay(s.consts, t.consts, a);
    }
  }

  lemma {:induction false} GrowsTrans(a: Table, b: Table, c: Table)
    requires Grows(a, b) && Grows(b, c)
    ensures Grows(a, c)
  {
    forall i | 0 <= i < |a.globals| ensures SameSymbol(a.globals[i], c.globals[i]) {
      assert SameSymbol(a.globals[i], b.globals[i]) && SameSymbol(b.globals[i], c.globals[i]);
    }
    forall i | 0 <= i < |a.consts| ensures SameSymbol(a.consts[i], c.consts[i]) {
      assert SameSymbol(a.consts[i], b.consts[i]) && SameSymbol(b.consts[i], c.consts[i]);
    }
  }

  /** Some symbol of that name has an initialiser. */
  ghost predicate InitializedIn(l: seq<Symbol>, name: string) {
    exists i :: 0 <= i < |l| && l[i].name == name && l[i].initializer != []
  }

  ghost predicate HasInitializer(tab: Table, name: string) {
    InitializedIn(tab.globals, name) || InitializedIn(tab.consts, name)
  }

  /** Once initialised, always initialised. */
  lemma {:induction false} InitializerStays(a: Table, b: Table, name: string)
    requires Grows(a, b) && HasInitializer(a, name)
    ensures HasInitializer(b, name)
  {
    if InitializedIn(a.globals, name) {
      var i :| 0 <= i < |a.globals| && a.globals[i].name == name && a.globals[i].initializer != [];
      assert SameSymbol(a.globals[i], b.globals[i]);
    } else {
      var i :| 0 <= i < |a.consts| && a.consts[i].name == name && a.consts[i].initializer != [];
      assert SameSymbol(a.consts[i], b.consts[i]);
    }
  }

  /* The object that is updated */

  class SymbolTable {
    var globals: seq<Symbol>
    var consts: seq<Symbol>
    var globalNext: nat

    ghost function Contents(): Table
      reads this
    {
      Table(globals, consts, globalNext)
    }

    constructor ()
      ensures Contents() == EMPTY
    {
      globals, consts, globalNext := [], [], 0x100;
    }

    /** Looks a name up in a list of symbols. */
    method Lookup(l: seq<Symbol>, name: string) returns (found: bool)
      ensures found <==> Named(l, name)
    {
      for i := 0 to |l|
        invariant forall k :: 0 <= k < i ==> l[k].name != name
      {
        if l[i].name == name {
          return true;
        }
      }
      return false;
    }

    /** Gives the symbol of that name another initialiser. */
    method AddInitializer(l: seq<Symbol>, name: string, init: seq<Operand>) returns (m: seq<Symbol>)
      ensures m == Reinitialised(l, name, init)
    {
      m := l;
      for i := 0 to |l|
        invariant |m| == |l|
        invariant forall k :: 0 <= k < i ==> m[k] == Reinitialised(l, name, init)[k]
        invariant forall k :: i <= k < |l| ==> m[k] == l[k]
      {
        if m[i].name == name {
          m := m[i := m[i].(initializer := init)];
        }
      }
    }

    /** Adds a declared variable, or gives one declared before its new initialiser. */
    method AddIdentifier(d: Declaration)
      modifies this
      ensures Contents() == Declare(old(Contents()), d)
    {
      var inGlobals := Lookup(globals, d.name);
      var inConsts := Lookup(consts, d.name);
      if inGlobals || inConsts {
        if |d.initializer| > 0 {
          globals := AddInitializer(globals, d.name, d.initializer);
          consts := AddInitializer(consts, d.name, d.initializer);
        }
        return;
      }
      var s := NewSymbol(globalNext, d);
      if s.placed {
        globalNext := s.address + s.reserved;
      }
      if d.isConst {
        consts := consts + [s];
      } else {
        globals := globals + [s];
      }
    }

    /** Adds the declarations of a text in order. */
    method AddAll(ds: seq<Declaration>)
      modifies this
      ensures Contents() == DeclareAll(old(Contents()), ds)
    {
      for i := 0 to |ds|
        invariant Contents() == DeclareAll(old(Contents()), ds[..i])
      {
        assert ds[..i + 1][..i] == ds[..i];
        AddIdentifier(ds[i]);
      }
      assert ds[..|ds|] == ds;
    }
  }
}
