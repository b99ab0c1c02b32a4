/** Writing PTX initialisers into device memory (libcuda/cuda_runtime_api.cc). */
module DeviceMemory {
  import opened Results
  import opened Arithmetic
  import opened Sequences

  type Bytes = map<nat, nat>

  /** A byte never written reads as zero. */
  function Read(bytes: Bytes, a: nat): nat {
    if a in bytes then bytes[a] else 0
  }

  /** The low `n` bytes of a register, lowest first. */
  function LittleEndian(value: nat, n: nat): (data: seq<nat>)
    ensures |data| == n
  {
    if n == 0 then [] else [value % 256] + LittleEndian(value / 256, n - 1)
  }

  function Power256(n: nat): (p: nat)
    ensures p > 0
  {
    if n == 0 then 1 else 256 * Power256(n - 1)
  }

  /** The value of bytes read lowest first. */
  function FromLittleEndian(data: seq<nat>): nat {
    if data == [] then 0 else data[0] + 256 * FromLittleEndian(data[1..])
  }

  /** Reading back what was stored gives the value, cut to its width. */
  lemma {:induction false} LittleEndianRoundTrip(value: nat, n: nat)
    ensures FromLittleEndian(LittleEndian(value, n)) == value % Power256(n)
  {
    if n > 0 {
      LittleEndianRoundTrip(value / 256, n - 1);
      var data := LittleEndian(value, n);
      assert data[1..] == LittleEndian(value / 256, n - 1);
      SplitModulo(value, Power256(n - 1));
    }
  }

  lemma SplitModulo(v: nat, p: nat)
    requires p > 0
    ensures v % (256 * p) == v % 256 + 256 * (v / 256 % p)
  {
    var u, low := v / 256, v % 256;
    var q, m := u / p, u % p;
    assert u == p * q + m && v == 256 * u + low;
    assert 256 * (p * q + m) == (256 * p) * q + 256 * m;
    RemainderUnique(v, 256 * p, q, low + 256 * m);
  }

  lemma RemainderUnique(v: nat, d: nat, q: nat, r: nat)
    requires d > 0 && r < d && v == d * q + r
    ensures v % d == r
  {
    var k := v / d - q;
    assert d * (v / d) + v % d == d * q + r;
    assert d * k == d * (v / d) - d * q;
    NoMultipleBetween(d, k, r - v % d);
  }

  /** One write: bytes from an address on. */
  datatype Chunk = Chunk(at: nat, data: seq<nat>)

  predicate Hits(c: Chunk, a: nat) {
    c.at <= a < c.at + |c.data|
  }

  /** The byte at `a` after the writes: the last write that hits it, or what was there before. */
  function ReadOver(before: Bytes, writes: seq<Chunk>, a: nat): nat {
    if writes == [] then Read(before, a)
    else
      var last := writes[|writes| - 1];
      if Hits(last, a) then last.data[a - last.at] else ReadOver(before, writes[..|writes| - 1], a)
  }

  /** `after` is `before` with the writes done. */
  ghost predicate Written(before: Bytes, writes: seq<Chunk>, after: Bytes) {
    forall a: nat :: Read(after, a) == ReadOver(before, writes, a)
  }

  lemma {:induction false} OverConcat(before: Bytes, first: seq<Chunk>, between: Bytes, second: seq<Chunk>, a: nat)
    requires Written(before, first, between)
    ensures ReadOver(between, second, a) == ReadOver(before, first + second, a)
  {
    if second == [] {
      assert first + second == first;
    } else {
      var front := second[..|second| - 1];
      OverConcat(before, first, between, front, a);
      assert (first + second)[..|first + second| - 1] == first + front;
    }
  }

  lemma WrittenTrans(before: Bytes, first: seq<Chunk>, between: Bytes, second: seq<Chunk>, after: Bytes)
    requires Written(before, first, between) && Written(between, second, after)
    ensures Written(before, first + second, after)
  {
    forall a: nat ensures Read(after, a) == ReadOver(before, first + second, a) {
      OverConcat(before, first, between, second, a);
    }
  }

  lemma {:induction false} ReadMiss(before: Bytes, writes: seq<Chunk>, a: nat)
    requires forall i :: 0 <= i < |writes| ==> !Hits(writes[i], a)
    ensures ReadOver(before, writes, a) == Read(before, a)
  {
    if writes != [] {
      ReadMiss(before, writes[..|writes| - 1], a);
    }
  }

  /** A byte keeps the value of the last write that hits it. */
  lemma {:induction false} ReadHit(before: Bytes, writes: seq<Chunk>, n: nat, a: nat)
    requires n < |writes| && Hits(writes[n], a)
    requires forall i :: n < i < |writes| ==> !Hits(writes[i], a)
    ensures ReadOver(before, writes, a) == writes[n].data[a - writes[n].at]
  {
    if n < |writes| - 1 {
      ReadHit(before, writes[..|writes| - 1], n, a);
    }
  }

  class GlobalMemory {
    var bytes: Bytes

    /** Writes the low `length` bytes of a register, assuming a little-endian host. */
    method Write(addr: nat, length: nat, value: nat)
      modifies this
      ensures Written(old(bytes), [Chunk(addr, LittleEndian(value, length))], bytes)
    {
      var rest := value;
      ghost var data := LittleEndian(value, length);
      for i := 0 to length
        invariant data[i..] == LittleEndian(rest, length - i)
        invariant forall a: nat ::
          Read(bytes, a) == if addr <= a < addr + i then data[a - addr] else Read(old(bytes), a)
      {
        assert data[i] == data[i..][0] == rest % 256;
        assert data[i + 1..] == data[i..][1..];
        ghost var before := bytes;
        bytes := bytes[addr + i := rest % 256];
        forall a: nat
          ensures Read(bytes, a) == if addr <= a < addr + i + 1 then data[a - addr] else Read(old(bytes), a)
        {
          assert a != addr + i ==> Read(bytes, a) == Read(before, a);
        }
        rest := rest / 256;
      }
      WrittenOnce(old(bytes), Chunk(addr, data), bytes);
    }
  }

  lemma WrittenOnce(before: Bytes, c: Chunk, after: Bytes)
    requires forall a: nat :: Read(after, a) == if Hits(c, a) then c.data[a - c.at] else Read(before, a)
    ensures Written(before, [c], after)
  {
    forall a: nat ensures Read(after, a) == ReadOver(before, [c], a) {
      assert [c][..0] == [];
    }
  }

  /* Symbols with initialisers */

  datatype OperandKind = IntOp | FloatOp | DoubleOp | OtherOp

  datatype Operand = Operand(kind: OperandKind, value: nat)

  /** A variable: where it is placed, if it is, how many bytes are reserved there, how wide its elements
      are, and its initialiser. */
  datatype Symbol = Symbol(
    name: string, address: nat, placed: bool, reserved: nat, isConst: bool, bits: nat, initializer: seq<Operand>)
  {
    function Width(): nat {
      bits / 8
    }

    /** The bytes its first `j` elements take. */
    function Offset(j: nat): nat {
      if j == 0 then 0 else Offset(j - 1) + Width()
    }

    function Size(): nat {
      Offset(|initializer|)
    }
  }

  datatype LoadError = PastStaticLimit | BadOperand | UnknownOperand | NotPlaced

  /** The address just past element `j`, as 32-bit unsigned arithmetic has it, is below the heap. */
  predicate ElementBelow(s: Symbol, j: nat, limit: nat) {
    U32(s.address + s.Offset(j) + s.Width()) < limit
  }

  ghost predicate AllBelow(s: Symbol, limit: nat) {
    forall j :: 0 <= j < |s.initializer| ==> ElementBelow(s, j, limit)
  }

  /** The widths `load_constants` admits for each kind of literal. */
  predicate KindOk(kind: OperandKind, width: nat) {
    match kind
    case IntOp => width >= 1
    case FloatOp => width == 4
    case DoubleOp => width >= 4
    case OtherOp => false
  }

  /** The literal may initialise an element of so many bits: an integer one of a byte at least, a float one of
      32 bits, or some more that do not make a byte, a double one of 32 bits at least. */
  predicate Admits(kind: OperandKind, bits: nat) {
    (kind == IntOp && bits >= 8) || (kind == FloatOp && 32 <= bits < 40) || (kind == DoubleOp && bits >= 32)
  }

  lemma {:induction false} KindOkInBits(kind: OperandKind, bits: nat)
    ensures KindOk(kind, bits / 8) <==> Admits(kind, bits)
  {
  }

  /** The address of an element is asked for only if there is one. */
  ghost predicate KindsOk(s: Symbol) {
    && (s.initializer == [] || s.placed)
    && forall j :: 0 <= j < |s.initializer| ==> KindOk(s.initializer[j].kind, s.Width())
  }

  /** The write of element `j`. */
  function ElementChunk(s: Symbol, j: nat): (c: Chunk)
    requires j < |s.initializer|
    ensures |c.data| == s.Width()
  {
    Chunk(U32(s.address + s.Offset(j)), LittleEndian(s.initializer[j].value, s.Width()))
  }

  /** The writes of the first `j` elements of a symbol. */
  function Chunks(s: Symbol, j: nat): (writes: seq<Chunk>)
    requires j <= |s.initializer|
    ensures |writes| == j
  {
    if j == 0 then [] else Chunks(s, j - 1) + [ElementChunk(s, j - 1)]
  }

  function ChunksAll(symbols: seq<Symbol>): seq<Chunk> {
    if symbols == [] then []
    else
      var last := symbols[|symbols| - 1];
      ChunksAll(symbols[..|symbols| - 1]) + Chunks(last, |last.initializer|)
  }

  function SizeAll(symbols: seq<Symbol>): nat {
    if symbols == [] then 0 else SizeAll(symbols[..|symbols| - 1]) + symbols[|symbols| - 1].Size()
  }

  /** The symbols `load_constants` looks at. */
  function Constants(symbols: seq<Symbol>): seq<Symbol> {
    if symbols == [] then []
    else if symbols[|symbols| - 1].isConst then Constants(symbols[..|symbols| - 1]) + [symbols[|symbols| - 1]]
    else Constants(symbols[..|symbols| - 1])
  }

  /** They are the constants, all of them and in order. */
  lemma {:induction false} ConstantsAt(symbols: seq<Symbol>) returns (at: seq<nat>)
    ensures Picks(symbols, at, Constants(symbols))
    ensures forall i: nat :: i in at <==> i < |symbols| && symbols[i].isConst
  {
    at := [];
    if symbols != [] {
      var front, s := symbols[..|symbols| - 1], symbols[|symbols| - 1];
      at := ConstantsAt(front);
      assert symbols == front + [s];
      at := PickNext(front, s, at, Constants(front), s.isConst);
    }
  }

  lemma AllSnoc(symbols: seq<Symbol>, s: Symbol)
    ensures ChunksAll(symbols + [s]) == ChunksAll(symbols) + Chunks(s, |s.initializer|)
    ensures SizeAll(symbols + [s]) == SizeAll(symbols) + s.Size()
  {
    assert (symbols + [s])[..|symbols|] == symbols;
  }

  lemma AllSnocEmpty(symbols: seq<Symbol>, s: Symbol)
    requires s.initializer == []
    ensures ChunksAll(symbols + [s]) == ChunksAll(symbols) && SizeAll(symbols + [s]) == SizeAll(symbols)
  {
    AllSnoc(symbols, s);
  }

  /** The first `j` elements are checked and written. */
  ghost predicate ElementsLoaded(before: Bytes, s: Symbol, limit: nat, constant: bool, j: nat, bytes: Bytes) {
    && j <= |s.initializer| && Written(before, Chunks(s, j), bytes)
    && (forall i :: 0 <= i < j ==> ElementBelow(s, i, limit))
    && (constant ==> forall i :: 0 <= i < j ==> KindOk(s.initializer[i].kind, s.Width()))
    && (constant && j > 0 ==> s.placed)
  }

  lemma ElementWritten(
    before: Bytes, s: Symbol, limit: nat, constant: bool, j: nat, between: Bytes, bytes: Bytes)
    requires ElementsLoaded(before, s, limit, constant, j, between) && j < |s.initializer|
    requires ElementBelow(s, j, limit) && Written(between, [ElementChunk(s, j)], bytes)
    requires constant ==> s.placed && KindOk(s.initializer[j].kind, s.Width())
    ensures ElementsLoaded(before, s, limit, constant, j + 1, bytes)
  {
    WrittenTrans(before, Chunks(s, j), between, [ElementChunk(s, j)], bytes);
  }

  /** Writes one symbol's initialiser element by element; `constant` adds the literal checks. */
  method LoadSymbol(memory: GlobalMemory, s: Symbol, limit: nat, constant: bool) returns (r: Result<nat, LoadError>)
    modifies memory
    ensures r.Success? <==> AllBelow(s, limit) && (constant ==> KindsOk(s))
    ensures r.Success? ==> r.value == s.Size() && Written(old(memory.bytes), Chunks(s, |s.initializer|), memory.bytes)
  {
    var nbytes := s.Width();
    var offset := 0;
    for j := 0 to |s.initializer|
      invariant offset == s.Offset(j)
      invariant ElementsLoaded(old(memory.bytes), s, limit, constant, j, memory.bytes)
    {
      var op := s.initializer[j];
      if constant && !KindOk(op.kind, nbytes) {
        return Failure(if op.kind == OtherOp then UnknownOperand else BadOperand);
      }
      if constant && !s.placed {
        return Failure(NotPlaced);
      }
      if U32(s.address + offset + nbytes) >= limit {
        assert !ElementBelow(s, j, limit);
        return Failure(PastStaticLimit);
      }
      ghost var between := memory.bytes;
      memory.Write(U32(s.address + offset), nbytes, op.value);
      ElementWritten(old(memory.bytes), s, limit, constant, j, between, memory.bytes);
      offset := offset + nbytes;
    }
    return Success(offset);
  }

  /** The first `i` globals are checked, written and counted. */
  ghost predicate GlobalsLoaded(
    before: Bytes, globals: seq<Symbol>, limit: nat, i: nat, ngBytes: nat, bytes: Bytes)
  {
    && i <= |globals| && ngBytes == SizeAll(globals[..i])
    && Written(before, ChunksAll(globals[..i]), bytes)
    && forall k :: 0 <= k < i ==> AllBelow(globals[k], limit)
  }

  lemma GlobalWritten(
    before: Bytes, globals: seq<Symbol>, limit: nat, i: nat, ngBytes: nat, between: Bytes, bytes: Bytes)
    requires GlobalsLoaded(before, globals, limit, i, ngBytes, between) && i < |globals|
    requires AllBelow(globals[i], limit) && Written(between, Chunks(globals[i], |globals[i].initializer|), bytes)
    ensures GlobalsLoaded(before, globals, limit, i + 1, ngBytes + globals[i].Size(), bytes)
  {
    assert globals[..i + 1] == globals[..i] + [globals[i]];
    AllSnoc(globals[..i], globals[i]);
    WrittenTrans(before, ChunksAll(globals[..i]), between, Chunks(globals[i], |globals[i].initializer|), bytes);
  }

  lemma GlobalSkipped(before: Bytes, globals: seq<Symbol>, limit: nat, i: nat, ngBytes: nat, bytes: Bytes)
    requires GlobalsLoaded(before, globals, limit, i, ngBytes, bytes) && i < |globals| && globals[i].initializer == []
    ensures GlobalsLoaded(before, globals, limit, i + 1, ngBytes, bytes)
  {
    assert globals[..i + 1] == globals[..i] + [globals[i]];
    AllSnocEmpty(globals[..i], globals[i]);
  }

  method LoadStaticGlobals(memory: GlobalMemory, globals: seq<Symbol>, minGaddr: nat)
    returns (r: Result<nat, LoadError>)
    modifies memory
    ensures r.Success? <==> forall i :: 0 <= i < |globals| ==> AllBelow(globals[i], minGaddr)
    ensures r.Success? ==> r.value == SizeAll(globals) && Written(old(memory.bytes), ChunksAll(globals), memory.bytes)
  {
    var ngBytes := 0;
    for i := 0 to |globals|
      invariant GlobalsLoaded(old(memory.bytes), globals, minGaddr, i, ngBytes, memory.bytes)
    {
      var global := globals[i];
      if |global.initializer| > 0 {
        ghost var between := memory.bytes;
        var written := LoadSymbol(memory, global, minGaddr, false);
        if written.Failure? {
          return written;
        }
        GlobalWritten(old(memory.bytes), globals, minGaddr, i, ngBytes, between, memory.bytes);
        ngBytes := ngBytes + written.value;
      } else {
        GlobalSkipped(old(memory.bytes), globals, minGaddr, i, ngBytes, memory.bytes);
      }
    }
    assert globals[..|globals|] == globals;
    return Success(ngBytes);
  }

  ghost predicate ConstantOk(s: Symbol, limit: nat) {
    s.isConst ==> AllBelow(s, limit) && KindsOk(s)
  }

  lemma ConstantsSnoc(symbols: seq<Symbol>, i: nat)
    requires i < |symbols|
    ensures Constants(symbols[..i + 1]) ==
      if symbols[i].isConst then Constants(symbols[..i]) + [symbols[i]] else Constants(symbols[..i])
  {
    assert symbols[..i + 1][..i] == symbols[..i];
  }

  /** The first `i` symbols are looked at, the constants among them checked, written and counted. */
  ghost predicate ConstantsLoaded(
    before: Bytes, consts: seq<Symbol>, limit: nat, i: nat, ncBytes: nat, bytes: Bytes)
  {
    && i <= |consts| && ncBytes == SizeAll(Constants(consts[..i]))
    && Written(before, ChunksAll(Constants(consts[..i])), bytes)
    && forall k :: 0 <= k < i ==> ConstantOk(consts[k], limit)
  }

  lemma ConstantWritten(
    before: Bytes, consts: seq<Symbol>, limit: nat, i: nat, ncBytes: nat, between: Bytes, bytes: Bytes)
    requires ConstantsLoaded(before, consts, limit, i, ncBytes, between) && i < |consts|
    requires consts[i].isConst && ConstantOk(consts[i], limit)
    requires Written(between, Chunks(consts[i], |consts[i].initializer|), bytes)
    ensures ConstantsLoaded(before, consts, limit, i + 1, ncBytes + consts[i].Size(), bytes)
  {
    var done := Constants(consts[..i]);
    ConstantsSnoc(consts, i);
    AllSnoc(done, consts[i]);
    WrittenTrans(before, ChunksAll(done), between, Chunks(consts[i], |consts[i].initializer|), bytes);
  }

  lemma ConstantSkipped(before: Bytes, consts: seq<Symbol>, limit: nat, i: nat, ncBytes: nat, bytes: Bytes)
    requires ConstantsLoaded(before, consts, limit, i, ncBytes, bytes) && i < |consts|
    requires consts[i].isConst ==> consts[i].initializer == []
    ensures ConstantsLoaded(before, consts, limit, i + 1, ncBytes, bytes)
  {
    ConstantsSnoc(consts, i);
    if consts[i].isConst {
      AllSnocEmpty(Constants(consts[..i]), consts[i]);
    }
  }

  method LoadConstants(memory: GlobalMemory, consts: seq<Symbol>, minGaddr: nat) returns (r: Result<nat, LoadError>)
    modifies memory
    ensures r.Success? <==> forall i :: 0 <= i < |consts| ==> ConstantOk(consts[i], minGaddr)
    ensures r.Success? ==>
      r.value == SizeAll(Constants(consts)) && Written(old(memory.bytes), ChunksAll(Constants(consts)), memory.bytes)
  {
    var ncBytes := 0;
    for i := 0 to |consts|
      invariant ConstantsLoaded(old(memory.bytes), consts, minGaddr, i, ncBytes, memory.bytes)
    {
      var constant := consts[i];
      if constant.isConst && |constant.initializer| > 0 {
        ghost var between := memory.bytes;
        var written := LoadSymbol(memory, constant, minGaddr, true);
        if written.Failure? {
          return written;
        }
        ConstantWritten(old(memory.bytes), consts, minGaddr, i, ncBytes, between, memory.bytes);
        ncBytes := ncBytes + written.value;
      } else {
        ConstantSkipped(old(memory.bytes), consts, minGaddr, i, ncBytes, memory.bytes);
      }
    }
    assert consts[..|consts|] == consts;
    return Success(ncBytes);
  }

  /* What loading leaves in memory */

  /** Address `a` lies in the bytes `s` is placed on. */
  predicate Covers(s: Symbol, a: nat) {
    s.address <= a < s.address + s.Size()
  }

  /** The placement does not run past the 32-bit address space. */
  predicate NoWrap(s: Symbol) {
    s.address + s.Size() < TWO_TO_32
  }

  ghost predicate NoneWraps(symbols: seq<Symbol>) {
    forall i :: 0 <= i < |symbols| ==> NoWrap(symbols[i])
  }

  ghost predicate Disjoint(symbols: seq<Symbol>) {
    forall i, j, a :: 0 <= i < j < |symbols| && Covers(symbols[i], a) ==> !Covers(symbols[j], a)
  }

  function BytesAt(bytes: Bytes, a: nat, n: nat): (data: seq<nat>)
    ensures |data| == n
  {
    if n == 0 then [] else BytesAt(bytes, a, n - 1) + [Read(bytes, a + n - 1)]
  }

  /** Element `j` of `s` can be read little-endian where it belongs. */
  ghost predicate ElementReadable(bytes: Bytes, s: Symbol, j: nat)
    requires j < |s.initializer|
  {
    var data := BytesAt(bytes, s.address + j * s.Width(), s.Width());
    FromLittleEndian(data) == s.initializer[j].value % Power256(s.Width())
  }

  lemma {:induction false} OffsetIsProduct(s: Symbol, j: nat)
    ensures s.Offset(j) == j * s.Width()
  {
    if j > 0 {
      OffsetIsProduct(s, j - 1);
      assert (j - 1) * s.Width() + s.Width() == j * s.Width();
    }
  }

  lemma {:induction false} OffsetMonotone(s: Symbol, i: nat, j: nat)
    requires i <= j
    ensures s.Offset(i) <= s.Offset(j)
    ensures i < j ==> s.Offset(i) + s.Width() <= s.Offset(j)
  {
    if i < j {
      OffsetMonotone(s, i, j - 1);
    }
  }

  /** Where the writes of a symbol go. */
  lemma {:induction false} ChunkPlace(s: Symbol, j: nat, i: nat)
    requires i < j <= |s.initializer| && NoWrap(s)
    ensures Chunks(s, j)[i] == ElementChunk(s, i)
    ensures Chunks(s, j)[i].at == s.address + s.Offset(i)
    ensures s.Offset(i) + s.Width() <= s.Size()
  {
    OffsetMonotone(s, i, |s.initializer|);
    if i < j - 1 {
      ChunkPlace(s, j - 1, i);
    }
  }

  lemma SymbolMisses(s: Symbol, a: nat)
    requires NoWrap(s) && !Covers(s, a)
    ensures forall i :: 0 <= i < |s.initializer| ==> !Hits(Chunks(s, |s.initializer|)[i], a)
  {
    forall i | 0 <= i < |s.initializer| ensures !Hits(Chunks(s, |s.initializer|)[i], a) {
      ChunkPlace(s, |s.initializer|, i);
    }
  }

  lemma {:induction false} AllMiss(symbols: seq<Symbol>, a: nat)
    requires NoneWraps(symbols) && forall i :: 0 <= i < |symbols| ==> !Covers(symbols[i], a)
    ensures forall i :: 0 <= i < |ChunksAll(symbols)| ==> !Hits(ChunksAll(symbols)[i], a)
  {
    if symbols != [] {
      AllMiss(symbols[..|symbols| - 1], a);
      SymbolMisses(symbols[|symbols| - 1], a);
    }
  }

  /** No symbol after number `n` is placed on byte `a`. */
  ghost predicate NoneCoversAfter(symbols: seq<Symbol>, n: nat, a: nat) {
    forall m :: n < m < |symbols| ==> !Covers(symbols[m], a)
  }

  /** Element `i` of symbol `n` is the last write that hits its bytes. */
  lemma {:induction false} ElementIsLastHit(symbols: seq<Symbol>, n: nat, i: nat, a: nat) returns (k: nat)
    requires n < |symbols| && NoneCoversAfter(symbols, n, a) && NoneWraps(symbols)
    requires i < |symbols[n].initializer|
    requires var base := symbols[n].address + symbols[n].Offset(i); base <= a < base + symbols[n].Width()
    ensures k < |ChunksAll(symbols)| && ChunksAll(symbols)[k] == ElementChunk(symbols[n], i)
    ensures forall q :: k < q < |ChunksAll(symbols)| ==> !Hits(ChunksAll(symbols)[q], a)
  {
    var s, last := symbols[n], symbols[|symbols| - 1];
    var front := symbols[..|symbols| - 1];
    ChunkPlace(s, |s.initializer|, i);
    assert Covers(s, a);
    if n < |symbols| - 1 {
      k := ElementIsLastHit(front, n, i, a);
      SymbolMisses(last, a);
    } else {
      k := |ChunksAll(front)| + i;
      forall j | i < j < |s.initializer| ensures !Hits(Chunks(s, |s.initializer|)[j], a) {
        ChunkPlace(s, |s.initializer|, j);
        OffsetMonotone(s, i, j);
      }
    }
  }

  /** With disjoint placements, running `load_static_globals` and then `load_constants` leaves every
      element of every symbol readable in its place and touches no other byte. */
  lemma {:induction false} InitialisersReadable(
    before: Bytes, globals: seq<Symbol>, between: Bytes, consts: seq<Symbol>, after: Bytes)
    requires Written(before, ChunksAll(globals), between) && Written(between, ChunksAll(Constants(consts)), after)
    requires var all := globals + Constants(consts); Disjoint(all) && NoneWraps(all)
    ensures var all := globals + Constants(consts);
      && (forall n, j :: 0 <= n < |all| && 0 <= j < |all[n].initializer| ==> ElementReadable(after, all[n], j))
      && (forall a: nat :: Uncovered(all, a) ==> Read(after, a) == Read(before, a))
  {
    var all := globals + Constants(consts);
    WrittenTrans(before, ChunksAll(globals), between, ChunksAll(Constants(consts)), after);
    ChunksConcat(globals, Constants(consts));
    forall n, j | 0 <= n < |all| && 0 <= j < |all[n].initializer| ensures ElementReadable(after, all[n], j) {
      assert [] + ChunksAll(all) == ChunksAll(all);
      ReadElement(before, [], all, after, n, j);
    }
    forall a: nat | Uncovered(all, a) ensures Read(after, a) == Read(before, a) {
      AllMiss(all, a);
      ReadMiss(before, ChunksAll(all), a);
    }
  }

  /** Wherever placements meet, the last symbol placed on a byte decides it, the constants coming after the
      globals. */
  lemma {:induction false} LastSymbolWins(
    before: Bytes, globals: seq<Symbol>, between: Bytes, consts: seq<Symbol>, after: Bytes, n: nat, i: nat, k: nat)
    requires Written(before, ChunksAll(globals), between) && Written(between, ChunksAll(Constants(consts)), after)
    requires NoneWraps(globals + Constants(consts)) && n < |globals + Constants(consts)|
    requires var s := (globals + Constants(consts))[n];
      && i < |s.initializer| && k < s.Width()
      && NoneCoversAfter(globals + Constants(consts), n, s.address + s.Offset(i) + k)
    ensures var s := (globals + Constants(consts))[n];
      Read(after, s.address + s.Offset(i) + k) == LittleEndian(s.initializer[i].value, s.Width())[k]
  {
    WrittenTrans(before, ChunksAll(globals), between, ChunksAll(Constants(consts)), after);
    ChunksConcat(globals, Constants(consts));
    LastHitRead(before, globals + Constants(consts), after, n, i, k);
  }

  lemma {:induction false} LastHitRead(
    before: Bytes, all: seq<Symbol>, after: Bytes, n: nat, i: nat, k: nat)
    requires Written(before, ChunksAll(all), after) && NoneWraps(all)
    requires n < |all| && i < |all[n].initializer| && k < all[n].Width()
    requires NoneCoversAfter(all, n, all[n].address + all[n].Offset(i) + k)
    ensures Read(after, all[n].address + all[n].Offset(i) + k) == ElementChunk(all[n], i).data[k]
  {
    var s := all[n];
    var a := s.address + s.Offset(i) + k;
    ChunkPlace(s, |s.initializer|, i);
    var write := ElementIsLastHit(all, n, i, a);
    ReadHit(before, ChunksAll(all), write, a);
  }

  /** No symbol is placed on byte `a`. */
  ghost predicate Uncovered(symbols: seq<Symbol>, a: nat) {
    forall n :: 0 <= n < |symbols| ==> !Covers(symbols[n], a)
  }

  lemma {:induction false} ChunksConcat(a: seq<Symbol>, b: seq<Symbol>)
    ensures ChunksAll(a + b) == ChunksAll(a) + ChunksAll(b)
  {
    if b == [] {
      assert a + b == a;
    } else {
      var front, s := b[..|b| - 1], b[|b| - 1];
      assert b == front + [s];
      ChunksConcat(a, front);
      ChunksConcatSnoc(a, front, s);
    }
  }

  lemma {:induction false} ChunksConcatSnoc(a: seq<Symbol>, b: seq<Symbol>, s: Symbol)
    requires ChunksAll(a + b) == ChunksAll(a) + ChunksAll(b)
    ensures ChunksAll(a + (b + [s])) == ChunksAll(a) + ChunksAll(b + [s])
  {
    AllSnoc(b, s);
    AllSnoc(a + b, s);
    assert a + (b + [s]) == (a + b) + [s];
    Associate(ChunksAll(a), ChunksAll(b), Chunks(s, |s.initializer|));
  }

  lemma Associate(x: seq<Chunk>, y: seq<Chunk>, z: seq<Chunk>)
    ensures (x + y) + z == x + (y + z)
  {
  }

  lemma ElementBytes(
    before: Bytes, earlier: seq<Chunk>, symbols: seq<Symbol>, after: Bytes, n: nat, j: nat)
    requires Written(before, earlier + ChunksAll(symbols), after)
    requires n < |symbols| && Disjoint(symbols) && NoneWraps(symbols)
    requires j < |symbols[n].initializer|
    ensures var s := symbols[n];
      BytesAt(after, s.address + s.Offset(j), s.Width()) == ElementChunk(s, j).data
  {
    var s := symbols[n];
    var base, data := s.address + s.Offset(j), ElementChunk(s, j).data;
    forall k | 0 <= k < s.Width() ensures Read(after, base + k) == data[k] {
      ReadByte(before, earlier, symbols, after, n, j, k);
    }
    SameBytes(after, base, data, s.Width());
    assert data[..s.Width()] == data;
  }

  /** Whatever was written earlier, an element of symbols written since can be read. */
  lemma ReadElement(
    before: Bytes, earlier: seq<Chunk>, symbols: seq<Symbol>, after: Bytes, n: nat, j: nat)
    requires Written(before, earlier + ChunksAll(symbols), after)
    requires n < |symbols| && Disjoint(symbols) && NoneWraps(symbols)
    requires j < |symbols[n].initializer|
    ensures ElementReadable(after, symbols[n], j)
  {
    var s := symbols[n];
    ElementBytes(before, earlier, symbols, after, n, j);
    StoredReadable(after, s, j);
  }

  lemma StoredReadable(bytes: Bytes, s: Symbol, j: nat)
    requires j < |s.initializer|
    requires BytesAt(bytes, s.address + s.Offset(j), s.Width()) == ElementChunk(s, j).data
    ensures ElementReadable(bytes, s, j)
  {
    OffsetIsProduct(s, j);
    LittleEndianRoundTrip(s.initializer[j].value, s.Width());
  }

  lemma ReadByte(
    before: Bytes, earlier: seq<Chunk>, symbols: seq<Symbol>, after: Bytes, n: nat, j: nat, k: nat)
    requires Written(before, earlier + ChunksAll(symbols), after)
    requires n < |symbols| && Disjoint(symbols) && NoneWraps(symbols)
    requires j < |symbols[n].initializer| && k < symbols[n].Width()
    ensures Read(after, symbols[n].address + symbols[n].Offset(j) + k) == ElementChunk(symbols[n], j).data[k]
  {
    var s := symbols[n];
    ChunkPlace(s, |s.initializer|, j);
    var a := s.address + s.Offset(j) + k;
    assert Covers(s, a);
    assert NoneCoversAfter(symbols, n, a);
    var write := ElementIsLastHit(symbols, n, j, a);
    ReadHitAfter(before, earlier, ChunksAll(symbols), write, a);
  }

  lemma {:induction false} ReadHitAfter(before: Bytes, earlier: seq<Chunk>, writes: seq<Chunk>, n: nat, a: nat)
    requires n < |writes| && Hits(writes[n], a)
    requires forall i :: n < i < |writes| ==> !Hits(writes[i], a)
    ensures ReadOver(before, earlier + writes, a) == writes[n].data[a - writes[n].at]
  {
    var all := earlier + writes;
    assert all[|earlier| + n] == writes[n];
    forall i | |earlier| + n < i < |all| ensures !Hits(all[i], a) {
      assert all[i] == writes[i - |earlier|];
    }
    ReadHit(before, all, |earlier| + n, a);
  }

  lemma {:induction false} SameBytes(bytes: Bytes, a: nat, data: seq<nat>, n: nat)
    requires n <= |data| && forall k :: 0 <= k < n ==> Read(bytes, a + k) == data[k]
    ensures BytesAt(bytes, a, n) == data[..n]
  {
    if n > 0 {
      SameBytes(bytes, a, data, n - 1);
    }
  }

  /** Some write of the symbol hits a byte at or above the limit. */
  ghost predicate WritesPast(s: Symbol, limit: nat) {
    exists j, a: nat :: 0 <= j < |s.initializer| && a >= limit && Hits(ElementChunk(s, j), a)
  }

  /** The first element that ends past the 32-bit address space. */
  lemma {:induction false} FirstToCross(s: Symbol, n: nat) returns (j: nat)
    requires n <= |s.initializer| && s.address < TWO_TO_32 <= s.address + s.Offset(n)
    ensures j < n && s.address + s.Offset(j) < TWO_TO_32 <= s.address + s.Offset(j) + s.Width()
  {
    if s.address + s.Offset(n - 1) < TWO_TO_32 {
      j := n - 1;
    } else {
      j := FirstToCross(s, n - 1);
    }
  }

  lemma {:induction false} EndIsBelow(s: Symbol, limit: nat)
    requires NoWrap(s) && AllBelow(s, limit) && s.initializer != []
    ensures s.address + s.Size() < limit
  {
    assert ElementBelow(s, |s.initializer| - 1, limit);
  }

  lemma {:induction false} WriteIsBelow(s: Symbol, limit: nat, j: nat, a: nat)
    requires NoWrap(s) && AllBelow(s, limit) && j < |s.initializer| && Hits(ElementChunk(s, j), a)
    ensures a < limit
  {
    EndIsBelow(s, limit);
    ChunkPlace(s, |s.initializer|, j);
  }

  /** For a symbol that passes the checks, every byte written lies below the heap exactly when its
      placement ends within the 32-bit address space. */
  lemma {:induction false} HeapCheckExact(s: Symbol, limit: nat)
    requires s.address < TWO_TO_32 && limit < TWO_TO_32 && AllBelow(s, limit)
    ensures !WritesPast(s, limit) <==> NoWrap(s)
    ensures NoWrap(s) ==> forall a: nat :: Covers(s, a) ==> a < limit
  {
    if NoWrap(s) {
      if s.initializer != [] {
        EndIsBelow(s, limit);
      }
      forall j, a: nat | 0 <= j < |s.initializer| && Hits(ElementChunk(s, j), a) ensures a < limit {
        WriteIsBelow(s, limit, j, a);
      }
    } else {
      var j := FirstToCross(s, |s.initializer|);
      assert Hits(ElementChunk(s, j), TWO_TO_32 - 1);
    }
  }

  /** Element `j` ends, in 32-bit arithmetic, below the limit. */
  predicate EndsBelow(s: Symbol, j: nat, limit: nat) {
    (s.address + (j + 1) * (s.bits / 8)) % TWO_TO_32 < limit
  }

  /** The checks, element by element: a global's elements end below the limit; a constant with an initialiser
      is moreover placed, and its literals are admitted. */
  lemma {:induction false} ChecksExactly(s: Symbol, limit: nat)
    ensures AllBelow(s, limit) <==> forall j: nat :: j < |s.initializer| ==> EndsBelow(s, j, limit)
    ensures ConstantOk(s, limit) <==>
      (s.isConst && s.initializer != [] ==>
        && s.placed
        && forall j: nat :: j < |s.initializer| ==> EndsBelow(s, j, limit) && Admits(s.initializer[j].kind, s.bits))
  {
    forall j: nat ensures EndsBelow(s, j, limit) <==> ElementBelow(s, j, limit) {
      OffsetIsProduct(s, j + 1);
    }
    forall kind ensures KindOk(kind, s.Width()) <==> Admits(kind, s.bits) {
      KindOkInBits(kind, s.bits);
    }
  }

  /** The bytes counted for a symbol are its element count times its element width. */
  lemma {:induction false} SizeIsCountTimesWidth(s: Symbol)
    ensures s.Size() == |s.initializer| * s.Width()
  {
    OffsetIsProduct(s, |s.initializer|);
  }

  /** Near the top of the address space the check wraps around and passes: an eight-byte element at the
      last four bytes is written although it lies far above any limit past four. */
  lemma {:induction false} WrappedCheckPasses(limit: nat)
    requires 4 < limit < TWO_TO_32 - 4
    ensures var s := Symbol("x", TWO_TO_32 - 4, true, 8, false, 64, [Operand(IntOp, 0)]);
      AllBelow(s, limit) && Covers(s, TWO_TO_32 - 4) && TWO_TO_32 - 4 >= limit && !NoWrap(s)
  {
    var s := Symbol("x", TWO_TO_32 - 4, true, 8, false, 64, [Operand(IntOp, 0)]);
    assert s.Offset(0) == 0 && s.Offset(1) == 8;
    assert U32(TWO_TO_32 + 4) == 4;
  }
}
