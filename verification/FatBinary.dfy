/** Registering and parsing fat binaries as a state machine over values: handles, file names, and the one
    symbol table every text is parsed into (libcuda/cuda_runtime_api.cc, libcuda/cuda_api_object.h,
    src/cuda-sim/ptx_parser.cc). */
module FatBinary {
  import opened Results
  import opened Sections
  import opened DeviceMemory
  import opened SymbolTables
  import opened MergedFiles

  /** The PTX parser, left open: the variables a text or file declares, in order. */
  datatype Parser = Parser(
    fromText: (string, nat) -> seq<Declaration>,
    fromFile: string -> seq<Declaration>,
    toPtxplus: (string, string, string) -> string)

  datatype Config = Config(
    forcedMax: nat,               // forced_max_capability, 0 for none
    ptxplus: bool,                // convert_to_ptxplus
    cdp: bool,                    // g_cdp_enabled
    preload: bool,                // CUOBJDUMP_SIM_FILE is set
    overridePtx: Option<string>,  // PTX_SIM_KERNELFILE, when PTX_SIM_USE_PTX_FILE is set
    versioned: bool,              // built for CUDART_VERSION >= 6000
    versionFiles: seq<string>,    // the PTX files by version, in the order they are parsed
    staticLimit: nat,             // STATIC_ALLOC_LIMIT
    parser: Parser)

  datatype ApiError =
    | SectionFault(error: SectionError)
    | NoPtxSection
    | NoSymbolTable
    | LoadFault

  /** A file name's load: the handle it was parsed for, and the table whose initialisers it then wrote. */
  datatype Load = Load(name: string, handle: nat, table: Table)

  datatype Api = Api(
    sections: seq<Section>,
    libSections: seq<Section>,
    files: Files,
    registered: set<nat>,
    fatbinmap: map<nat, string>,
    loaded: set<string>,               // the names in name_symtab; each of them has the one table
    code: set<nat>,                    // the handles in the context's m_code; each of them has the one table
    lastHandle: nat,
    nextHandle: nat,
    table: Table,                      // the table of all texts parsed so far
    loads: seq<Load>)                  // the loads so far, in order

  function Fresh(sections: seq<Section>, libSections: seq<Section>, files: Files): Api {
    Api(sections, libSections, files, {}, map[], {}, {}, 0, 1, EMPTY, [])
  }

  function Cap(env: Config): nat {
    EffectiveCap(env.forcedMax, env.ptxplus)
  }

  /** Pruning, then merging, unless the sections come from elsewhere. */
  function Init(env: Config, st: Api): Result<Api, ApiError> {
    if env.preload then Success(st)
    else
      var kept := Survivors(st.sections, st.sections, Cap(env));
      if kept == [] then Failure(SectionFault(NothingLeft))
      else
        match ChainAll(st.files, kept, PtxIds(kept))
        case Failure(e) => Failure(SectionFault(e))
        case Success(f) => Success(st.(sections := OnePerId(kept), files := f))
  }

  /** Issues the next handle; the first one initialises the sections. */
  function Register(env: Config, st: Api, filename: string): Result<Api, ApiError> {
    var handle := st.nextHandle;
    var issued := st.(nextHandle := handle + 1);
    match if handle == 1 then Init(env, issued) else Success(issued)
    case Failure(e) => Failure(e)
    case Success(s) => Success(s.(fatbinmap := s.fatbinmap[handle := filename]))
  }

  function FindPtxSection(env: Config, st: Api, id: string): Option<Section> {
    var found := FindPtx(st.sections, id, env.cdp);
    if found.Some? then found else FindPtx(st.libSections, id, env.cdp)
  }

  function FindElfSection(st: Api, id: string): Option<Section> {
    var found := FindElf(st.sections, id);
    if found.Some? then found else FindElf(st.libSections, id)
  }

  /** What the PTX files declare, one file after the other. */
  function FilesDeclare(env: Config, names: seq<string>): seq<Declaration> {
    if names == [] then []
    else FilesDeclare(env, names[..|names| - 1]) + env.parser.fromFile(names[|names| - 1])
  }

  /** The declarations a first parse of a file name adds to the table. */
  function Parsed(env: Config, st: Api, fname: string, handle: nat): Result<seq<Declaration>, ApiError> {
    if env.versioned then
      if env.versionFiles == [] then Failure(NoSymbolTable) else Success(FilesDeclare(env, env.versionFiles))
    else
      var ptx := if env.preload then None else FindPtxSection(env, st, fname);
      if !env.preload && ptx.None? then Failure(NoPtxSection)
      else if ptx.None? && (env.overridePtx.None? || env.ptxplus) then Failure(NoPtxSection)
      else
        match ReadFile(st.files, if env.overridePtx.Some? then env.overridePtx.value else PtxFile(ptx))
        case Failure(e) => Failure(SectionFault(e))
        case Success(text) =>
          if env.ptxplus then
            var elf := FindElfSection(st, SectionId(ptx));
            if elf.None? then Failure(SectionFault(SectionNotFound))
            else
              Success(env.parser.fromText(
                CStr(env.parser.toPtxplus(PtxFile(ptx), ElfFile(elf), SassFile(elf))), handle))
          else Success(env.parser.fromText(CStr(text), handle))
  }

  function PtxFile(s: Option<Section>): string {
    if s.Some? && s.value.PTX? then s.value.file else ""
  }

  function ElfFile(s: Option<Section>): string {
    if s.Some? && s.value.ELF? then s.value.elfFile else ""
  }

  function SassFile(s: Option<Section>): string {
    if s.Some? && s.value.ELF? then s.value.sassFile else ""
  }

  function SectionId(s: Option<Section>): string {
    if s.Some? then s.value.id else ""
  }

  /** The initialisers of a table pass the checks of `load_static_globals` and `load_constants`. */
  ghost predicate Loadable(tab: Table, limit: nat) {
    && (forall i :: 0 <= i < |tab.globals| ==> AllBelow(tab.globals[i], limit))
    && (forall i :: 0 <= i < |tab.consts| ==> ConstantOk(tab.consts[i], limit))
  }

  /** The memory writes that initialise a table. */
  function TableWrites(tab: Table): seq<Chunk> {
    ChunksAll(tab.globals) + ChunksAll(Constants(tab.consts))
  }

  function AddBinary(st: Api, handle: nat): Api {
    st.(code := st.code + {handle}, lastHandle := handle)
  }

  /** The name a handle stands for; asking for an unissued one records the empty name. */
  function NameOf(st: Api, handle: nat): string {
    if handle in st.fatbinmap then st.fatbinmap[handle] else ""
  }

  /** The state just after a handle is marked as registered and its name looked up. */
  function Asked(st: Api, handle: nat): Api {
    st.(registered := st.registered + {handle}, fatbinmap := st.fatbinmap[handle := NameOf(st, handle)])
  }

  /** A first parse for a name adds its text to the table and initialises the whole table. */
  ghost function Parse(env: Config, st: Api, handle: nat): Result<Api, ApiError> {
    if handle in st.registered then Success(st)
    else
      var fname, asked := NameOf(st, handle), Asked(st, handle);
      if fname in st.loaded then Success(AddBinary(asked, handle))
      else
        match Parsed(env, asked, fname, handle)
        case Failure(e) => Failure(e)
        case Success(ds) =>
          var tab := DeclareAll(st.table, ds);
          if !Loadable(tab, env.staticLimit) then Failure(LoadFault)
          else Success(Loaded(asked, fname, handle, tab))
  }

  function Loaded(st: Api, fname: string, handle: nat, tab: Table): Api {
    AddBinary(st, handle).(
      loaded := st.loaded + {fname}, table := tab, loads := st.loads + [Load(fname, handle, tab)])
  }

  /* Runs */

  datatype Call = RegisterFatBinary(filename: string) | ParseBinary(handle: nat)

  ghost function Step(env: Config, st: Api, c: Call): Result<Api, ApiError> {
    match c
    case RegisterFatBinary(f) => Register(env, st, f)
    case ParseBinary(h) => Parse(env, st, h)
  }

  /** A run ends at the first abort. */
  ghost function Run(env: Config, st: Api, calls: seq<Call>): Result<Api, ApiError> {
    if calls == [] then Success(st)
    else
      match Run(env, st, calls[..|calls| - 1])
      case Failure(e) => Failure(e)
      case Success(s) => Step(env, s, calls[|calls| - 1])
  }

  function Registers(calls: seq<Call>): nat {
    if calls == [] then 0
    else Registers(calls[..|calls| - 1]) + (if calls[|calls| - 1].RegisterFatBinary? then 1 else 0)
  }

  /** Only handles already issued are parsed. */
  ghost predicate OnlyIssued(calls: seq<Call>) {
    forall k :: 0 <= k < |calls| && calls[k].ParseBinary? ==> 1 <= calls[k].handle <= Registers(calls[..k])
  }

  /* What every reachable state satisfies */

  /** Every name is loaded at most once and is cached exactly when it was loaded; the table is the one of the
      last load; parsed handles are those bound, and have names. */
  ghost predicate CacheInv(st: Api) {
    && LoadsInv(st.loads) && st.table == LastTable(st.loads)
    && (forall f :: f in st.loaded <==> LoadedIn(st.loads, f))
    && st.registered == st.code && st.code <= st.fatbinmap.Keys
  }

  ghost predicate LoadedIn(loads: seq<Load>, f: string) {
    exists k :: 0 <= k < |loads| && loads[k].name == f
  }

  function LastTable(loads: seq<Load>): Table {
    if loads == [] then EMPTY else loads[|loads| - 1].table
  }

  /** The names are different, and the table grew from each load to every later one. */
  ghost predicate LoadsInv(loads: seq<Load>) {
    && (forall i, j :: 0 <= i < j < |loads| ==> loads[i].name != loads[j].name)
    && (forall i, j :: 0 <= i < j < |loads| ==> Grows(loads[i].table, loads[j].table))
    && (forall k :: 0 <= k < |loads| ==> TableInv(loads[k].table))
  }

  /** Nothing loaded or bound is forgotten, and the table only grows. */
  ghost predicate CacheGrows(st: Api, next: Api) {
    && st.loaded <= next.loaded && st.code <= next.code && st.registered <= next.registered
    && st.loads <= next.loads && Grows(st.table, next.table)
  }

  /** What registering changes: the handle counter, the new handle's name, and, the first time, the
      sections and their files. */
  ghost predicate RegisterChange(st: Api, filename: string, next: Api) {
    && next.registered == st.registered && next.loaded == st.loaded
    && next.code == st.code && next.loads == st.loads && next.libSections == st.libSections
    && next.table == st.table
    && next.nextHandle == st.nextHandle + 1
    && next.fatbinmap == st.fatbinmap[st.nextHandle := filename]
  }

  lemma RegisterEffect(env: Config, st: Api, filename: string)
    requires Register(env, st, filename).Success?
    ensures RegisterChange(st, filename, Register(env, st, filename).value)
  {
  }

  /** The table of `next` is that of `st` with some more declarations. */
  ghost predicate TableFrom(st: Table, next: Table) {
    exists ds :: next == DeclareAll(st, ds)
  }

  /** What a first parse of a handle changes: its binding, and table and cache if the name is new. */
  ghost predicate ParseChange(st: Api, h: nat, next: Api) {
    var f := NameOf(st, h);
    && next.registered == st.registered + {h}
    && next.fatbinmap == st.fatbinmap[h := f]
    && next.loaded == st.loaded + {f} && next.code == st.code + {h}
    && next.nextHandle == st.nextHandle && next.sections == st.sections
    && next.files == st.files && next.libSections == st.libSections
    && if f in st.loaded then next.table == st.table && next.loads == st.loads
       else TableFrom(st.table, next.table) && next.loads == st.loads + [Load(f, h, next.table)]
  }

  lemma ParseEffect(env: Config, st: Api, h: nat)
    requires Parse(env, st, h).Success?
    ensures h in st.registered ==> Parse(env, st, h).value == st
    ensures h !in st.registered ==> ParseChange(st, h, Parse(env, st, h).value)
  {
  }

  lemma RegisterKeepsCache(st: Api, filename: string, next: Api)
    requires CacheInv(st) && RegisterChange(st, filename, next)
    ensures CacheInv(next) && CacheGrows(st, next)
  {
  }

  lemma {:induction false} NewLoad(loads: seq<Load>, f: string, h: nat, tab: Table)
    requires LoadsInv(loads) && !LoadedIn(loads, f) && TableFrom(LastTable(loads), tab)
    ensures LoadsInv(loads + [Load(f, h, tab)]) && Grows(LastTable(loads), tab)
  {
    var ds :| tab == DeclareAll(LastTable(loads), ds);
    DeclareAllGrows(LastTable(loads), ds);
    DeclareAllKeepsInv(LastTable(loads), ds);
    var all := loads + [Load(f, h, tab)];
    forall i, j | 0 <= i < j < |all| ensures all[i].name != all[j].name && Grows(all[i].table, all[j].table) {
      if j == |loads| {
        LoadBefore(loads, i);
        GrowsTrans(loads[i].table, LastTable(loads), tab);
      }
    }
  }

  lemma {:induction false} LoadBefore(loads: seq<Load>, i: nat)
    requires LoadsInv(loads) && i < |loads|
    ensures Grows(loads[i].table, LastTable(loads))
  {
  }

  lemma {:induction false} LoadedSnoc(loads: seq<Load>, l: Load, f: string)
    ensures LoadedIn(loads + [l], f) <==> LoadedIn(loads, f) || l.name == f
  {
    var all := loads + [l];
    assert all[|loads|] == l;
    if k :| 0 <= k < |loads| && loads[k].name == f {
      assert all[k].name == f;
    }
  }

  lemma {:induction false} ParseKeepsCache(st: Api, h: nat, next: Api)
    requires CacheInv(st) && h !in st.registered && ParseChange(st, h, next)
    ensures CacheInv(next) && CacheGrows(st, next)
  {
    var f := NameOf(st, h);
    if f !in st.loaded {
      NewLoad(st.loads, f, h, next.table);
      forall g ensures g in next.loaded <==> LoadedIn(next.loads, g) {
        LoadedSnoc(st.loads, Load(f, h, next.table), g);
      }
    }
  }

  lemma StepKeepsCache(env: Config, st: Api, c: Call)
    requires CacheInv(st) && Step(env, st, c).Success?
    ensures var next := Step(env, st, c).value;
      && CacheInv(next)
      && CacheGrows(st, next)
      && next.nextHandle == st.nextHandle + (if c.RegisterFatBinary? then 1 else 0)
  {
    var next := Step(env, st, c).value;
    match c {
      case RegisterFatBinary(f) =>
        RegisterEffect(env, st, f);
        RegisterKeepsCache(st, f, next);
      case ParseBinary(h) =>
        ParseEffect(env, st, h);
        if h !in st.registered {
          ParseKeepsCache(st, h, next);
        }
    }
  }

  /** Over every run: names are loaded at most once, nothing loaded or bound is forgotten, and the one table
      only grows. */
  lemma {:induction false} RunKeepsCache(env: Config, st: Api, calls: seq<Call>)
    requires CacheInv(st) && Run(env, st, calls).Success?
    ensures var next := Run(env, st, calls).value;
      CacheInv(next) && CacheGrows(st, next) && next.nextHandle == st.nextHandle + Registers(calls)
  {
    if calls != [] {
      var front := calls[..|calls| - 1];
      RunKeepsCache(env, st, front);
      StepKeepsCache(env, Run(env, st, front).value, calls[|calls| - 1]);
    }
  }

  /** The names known are those of the issued handles, and parsed handles are bound to their name's table. */
  ghost predicate HandlesInv(st: Api) {
    && st.nextHandle >= 1
    && (forall h :: h in st.fatbinmap <==> 1 <= h < st.nextHandle)
    && (forall h :: h in st.registered ==> BoundToName(st, h))
  }

  /** The handle has the table cached for its name: there is only one, so the name need only be loaded. */
  ghost predicate BoundToName(st: Api, h: nat) {
    h in st.code && h in st.fatbinmap && st.fatbinmap[h] in st.loaded
  }

  /** Handles are fresh: a registration names a handle that had no name. */
  lemma {:induction false} RegisterKeepsHandles(st: Api, filename: string, next: Api)
    requires CacheInv(st) && HandlesInv(st) && RegisterChange(st, filename, next)
    ensures st.nextHandle !in st.fatbinmap && HandlesInv(next)
  {
    forall h | h in next.registered ensures BoundToName(next, h) {
      assert BoundToName(st, h);
    }
  }

  lemma ParseKeepsHandles(st: Api, h: nat, next: Api)
    requires CacheInv(st) && HandlesInv(st) && 1 <= h < st.nextHandle && h !in st.registered
    requires ParseChange(st, h, next)
    ensures next.fatbinmap == st.fatbinmap && HandlesInv(next)
  {
    assert st.fatbinmap[h := NameOf(st, h)] == st.fatbinmap;
    forall g | g in next.registered ensures BoundToName(next, g) {
      assert g != h ==> BoundToName(st, g);
    }
  }

  lemma StepKeepsHandles(env: Config, st: Api, c: Call)
    requires CacheInv(st) && HandlesInv(st) && Step(env, st, c).Success?
    requires c.ParseBinary? ==> 1 <= c.handle < st.nextHandle
    ensures HandlesInv(Step(env, st, c).value)
  {
    var next := Step(env, st, c).value;
    match c {
      case RegisterFatBinary(f) =>
        RegisterEffect(env, st, f);
        RegisterKeepsHandles(st, f, next);
      case ParseBinary(h) =>
        ParseEffect(env, st, h);
        if h !in st.registered {
          ParseKeepsHandles(st, h, next);
        }
    }
  }

  /** Over every run that parses only issued handles: each parsed handle's own file name is loaded, and the
      handles issued are 1, 2, 3, … in order. */
  lemma {:induction false} RunKeepsHandles(env: Config, st: Api, calls: seq<Call>)
    requires CacheInv(st) && HandlesInv(st) && st.nextHandle == 1
    requires Run(env, st, calls).Success? && OnlyIssued(calls)
    ensures CacheInv(Run(env, st, calls).value) && HandlesInv(Run(env, st, calls).value)
  {
    if calls != [] {
      var n := |calls| - 1;
      var front := calls[..n];
      forall k | 0 <= k < n && front[k].ParseBinary? ensures 1 <= front[k].handle <= Registers(front[..k]) {
        assert front[..k] == calls[..k] && front[k] == calls[k];
      }
      RunKeepsHandles(env, st, front);
      RunKeepsCache(env, st, front);
      StepKeepsHandles(env, Run(env, st, front).value, calls[n]);
      StepKeepsCache(env, Run(env, st, front).value, calls[n]);
    }
  }

  lemma FreshIsConsistent(sections: seq<Section>, libSections: seq<Section>, files: Files)
    ensures CacheInv(Fresh(sections, libSections, files)) && HandlesInv(Fresh(sections, libSections, files))
  {
  }

  /* Handles parsed before they are issued */

  /** Some call parses `h` when it has not been issued. */
  ghost predicate Early(calls: seq<Call>, h: nat) {
    exists k :: 0 <= k < |calls| && calls[k] == ParseBinary(h) && !(1 <= h <= Registers(calls[..k]))
  }

  lemma {:induction false} EarlySnoc(calls: seq<Call>, c: Call, h: nat)
    ensures Early(calls + [c], h) <==> Early(calls, h) || (c == ParseBinary(h) && !(1 <= h <= Registers(calls)))
  {
    var all := calls + [c];
    assert all[..|calls|] == calls;
    forall k | 0 <= k < |calls| ensures all[k] == calls[k] && all[..k] == calls[..k] {
    }
    if Early(calls, h) {
      var k :| 0 <= k < |calls| && calls[k] == ParseBinary(h) && !(1 <= h <= Registers(calls[..k]));
      assert all[k] == ParseBinary(h) && !(1 <= h <= Registers(all[..k]));
    }
    if c == ParseBinary(h) && !(1 <= h <= Registers(calls)) {
      assert all[|calls|] == ParseBinary(h);
    }
    if Early(all, h) {
      var k :| 0 <= k < |all| && all[k] == ParseBinary(h) && !(1 <= h <= Registers(all[..k]));
      assert k < |calls| ==> Early(calls, h);
    }
  }

  /** A handle parsed early was bound when the empty name was loaded. */
  ghost predicate BoundToEmpty(st: Api, h: nat) {
    h in st.fatbinmap && h in st.registered && h in st.code && "" in st.loaded
  }

  /** What a run with any calls keeps: names belong to issued handles and early ones; early handles are bound
      for the empty name, and every other parsed handle for its own. */
  ghost predicate EarlyInv(calls: seq<Call>, st: Api) {
    && st.nextHandle >= 1
    && (forall h: nat :: h in st.fatbinmap <==> 1 <= h < st.nextHandle || Early(calls, h))
    && (forall h :: Early(calls, h) ==> BoundToEmpty(st, h))
    && (forall h :: h in st.registered && !Early(calls, h) ==> BoundToName(st, h))
  }

  lemma {:induction false} RegisterKeepsEarly(calls: seq<Call>, st: Api, filename: string, next: Api)
    requires CacheInv(st) && EarlyInv(calls, st) && RegisterChange(st, filename, next)
    ensures EarlyInv(calls + [RegisterFatBinary(filename)], next)
  {
    var all := calls + [RegisterFatBinary(filename)];
    forall h ensures Early(all, h) <==> Early(calls, h) {
      EarlySnoc(calls, RegisterFatBinary(filename), h);
    }
    forall h | h in next.registered && !Early(all, h) ensures BoundToName(next, h) {
      assert BoundToName(st, h);
    }
    forall h | Early(all, h) ensures BoundToEmpty(next, h) {
      assert BoundToEmpty(st, h);
    }
  }

  lemma {:induction false} ReparseKeepsEarly(calls: seq<Call>, st: Api, h: nat)
    requires EarlyInv(calls, st) && h in st.registered && st.nextHandle == 1 + Registers(calls)
    ensures EarlyInv(calls + [ParseBinary(h)], st)
  {
    assert Early(calls, h) || BoundToName(st, h);
    forall g ensures Early(calls + [ParseBinary(h)], g) <==> Early(calls, g) {
      EarlySnoc(calls, ParseBinary(h), g);
    }
  }

  lemma {:induction false} ParseKeepsEarly(calls: seq<Call>, st: Api, h: nat, next: Api)
    requires CacheInv(st) && EarlyInv(calls, st) && st.nextHandle == 1 + Registers(calls)
    requires h !in st.registered && ParseChange(st, h, next)
    ensures EarlyInv(calls + [ParseBinary(h)], next)
  {
    var all := calls + [ParseBinary(h)];
    forall g ensures Early(all, g) <==> Early(calls, g) || (g == h && !(1 <= h < st.nextHandle)) {
      EarlySnoc(calls, ParseBinary(h), g);
    }
    assert Early(calls, h) ==> BoundToEmpty(st, h);
    forall g | Early(all, g) ensures BoundToEmpty(next, g) {
      assert g != h ==> BoundToEmpty(st, g);
    }
    forall g | g in next.registered && !Early(all, g) ensures BoundToName(next, g) {
      assert g != h ==> BoundToName(st, g);
    }
  }

  lemma {:induction false} StepKeepsEarly(env: Config, calls: seq<Call>, st: Api, c: Call)
    requires CacheInv(st) && EarlyInv(calls, st) && st.nextHandle == 1 + Registers(calls)
    requires Step(env, st, c).Success?
    ensures EarlyInv(calls + [c], Step(env, st, c).value)
  {
    var next := Step(env, st, c).value;
    match c {
      case RegisterFatBinary(f) =>
        RegisterEffect(env, st, f);
        RegisterKeepsEarly(calls, st, f, next);
      case ParseBinary(h) =>
        ParseEffect(env, st, h);
        if h in st.registered {
          ReparseKeepsEarly(calls, st, h);
        } else {
          ParseKeepsEarly(calls, st, h, next);
        }
    }
  }

  lemma {:induction false} RunKeepsEarly(env: Config, start: Api, calls: seq<Call>)
    requires start == Fresh(start.sections, start.libSections, start.files) && Run(env, start, calls).Success?
    ensures EarlyInv(calls, Run(env, start, calls).value)
  {
    if calls != [] {
      var front, c := calls[..|calls| - 1], calls[|calls| - 1];
      RunKeepsEarly(env, start, front);
      FreshIsConsistent(start.sections, start.libSections, start.files);
      RunKeepsCache(env, start, front);
      StepKeepsEarly(env, front, Run(env, start, front).value, c);
      assert front + [c] == calls;
    }
  }

  /** Over every run from the start, whichever handles it parses: all parsed handles are bound to their own
      names' table exactly when the name of each handle parsed before it was issued is loaded. */
  lemma {:induction false} BoundToNamesExactly(env: Config, start: Api, calls: seq<Call>)
    requires start == Fresh(start.sections, start.libSections, start.files) && Run(env, start, calls).Success?
    ensures var st := Run(env, start, calls).value;
      (forall h :: h in st.registered ==> BoundToName(st, h)) <==>
      (forall h :: Early(calls, h) ==> NameOf(st, h) in st.loaded)
  {
    RunKeepsEarly(env, start, calls);
    var st := Run(env, start, calls).value;
    forall h | h in st.registered
      ensures BoundToName(st, h) <==> (Early(calls, h) ==> NameOf(st, h) in st.loaded)
    {
      assert Early(calls, h) ==> BoundToEmpty(st, h);
    }
    forall h | Early(calls, h) ensures h in st.registered {
      assert BoundToEmpty(st, h);
    }
  }

  /** Once a handle is parsed, parsing it again changes nothing, whatever has happened in between. */
  lemma {:induction false} ReparseChangesNothing(env: Config, st: Api, handle: nat, calls: seq<Call>)
    requires CacheInv(st) && Parse(env, st, handle).Success?
    requires Run(env, Parse(env, st, handle).value, calls).Success?
    ensures var later := Run(env, Parse(env, st, handle).value, calls).value;
      Parse(env, later, handle) == Success(later)
  {
    StepKeepsCache(env, st, ParseBinary(handle));
    ParseEffect(env, st, handle);
    RunKeepsCache(env, Parse(env, st, handle).value, calls);
  }

  /** A handle parsed before it is issued stays bound for the empty name: registering it later gives it a name
      that is not loaded. */
  lemma {:induction false} UnissuedHandleMisbound(env: Config)
    requires env.versioned && env.preload && |env.versionFiles| > 0
    requires Loadable(DeclareAll(EMPTY, FilesDeclare(env, env.versionFiles)), env.staticLimit)
    ensures var calls := [ParseBinary(1), RegisterFatBinary("default"), ParseBinary(1)];
      var end := Run(env, Fresh([], [], map[]), calls);
      && end.Success? && 1 in end.value.registered && 1 in end.value.fatbinmap
      && end.value.fatbinmap[1] == "default" && "default" !in end.value.loaded
  {
    var st := Fresh([], [], map[]);
    var one := Parse(env, st, 1).value;
    assert one.loaded == {""} && one.registered == {1};
    var two := Register(env, one, "default").value;
    RegisterEffect(env, one, "default");
    RunThree(env, st, ParseBinary(1), RegisterFatBinary("default"), ParseBinary(1));
    assert Step(env, two, ParseBinary(1)) == Success(two);
  }

  lemma {:induction false} RunSnoc(env: Config, st: Api, calls: seq<Call>, c: Call)
    requires Run(env, st, calls).Success?
    ensures Run(env, st, calls + [c]) == Step(env, Run(env, st, calls).value, c)
  {
    assert (calls + [c])[..|calls|] == calls;
  }

  lemma {:induction false} RunThree(env: Config, st: Api, a: Call, b: Call, c: Call)
    requires Step(env, st, a).Success? && Step(env, Step(env, st, a).value, b).Success?
    ensures Run(env, st, [a, b, c]) == Step(env, Step(env, Step(env, st, a).value, b).value, c)
  {
    RunSnoc(env, st, [], a);
    assert [] + [a] == [a] && [a] + [b] == [a, b] && [a, b] + [c] == [a, b, c];
    RunSnoc(env, st, [a], b);
    RunSnoc(env, st, [a, b], c);
  }

  /* From sections to cached tables */

  /** The sections and files after the first registration, which nothing later changes. */
  ghost predicate SectionsInv(env: Config, l: seq<Section>, files: Files, st: Api)
    requires OwnAll(files, Survivors(l, l, Cap(env)))
  {
    var kept := Survivors(l, l, Cap(env));
    if st.nextHandle == 1 then st.sections == l && st.files == files
    else st.sections == Initialised(l, Cap(env)) && AllMerged(files, kept, PtxIds(kept), st.files)
  }

  /** Only the first registration touches sections and files, and only sections that are not preloaded: it
      aborts where pruning keeps nothing, and otherwise leaves the pruned and merged list. */
  lemma {:induction false} RegisterSections(env: Config, st: Api, filename: string)
    ensures var r := Register(env, st, filename);
      if env.preload || st.nextHandle != 1 then
        r.Success? && r.value.sections == st.sections && r.value.files == st.files
      else if forall i :: 0 <= i < |st.sections| ==> !IsKept(st.sections, st.sections[i], env.forcedMax, env.ptxplus)
      then r == Failure(SectionFault(NothingLeft))
      else r.Success? ==> r.value.sections == Initialised(st.sections, EffectiveCap(env.forcedMax, env.ptxplus))
  {
    var at := SurvivorsAt(st.sections, st.sections, env.forcedMax, env.ptxplus);
    if at != [] {
      assert at[0] in at;
    }
  }

  lemma InitEstablishes(env: Config, l: seq<Section>, files: Files, st: Api)
    requires !env.preload && OwnAll(files, Survivors(l, l, Cap(env)))
    requires st.sections == l && st.files == files && Init(env, st).Success?
    ensures var next, kept := Init(env, st).value, Survivors(l, l, Cap(env));
      && next.sections == Initialised(l, Cap(env)) && AllMerged(files, kept, PtxIds(kept), next.files)
      && next.libSections == st.libSections && next.nextHandle == st.nextHandle
  {
    var kept := Survivors(l, l, Cap(env));
    PtxIdsHold(kept);
    ChainAllMerges(files, kept, PtxIds(kept));
  }

  lemma StepKeepsSections(env: Config, l: seq<Section>, files: Files, st: Api, c: Call)
    requires !env.preload && OwnAll(files, Survivors(l, l, Cap(env)))
    requires SectionsInv(env, l, files, st) && st.libSections == [] && st.nextHandle >= 1
    requires Step(env, st, c).Success?
    ensures var next := Step(env, st, c).value;
      SectionsInv(env, l, files, next) && next.libSections == [] && next.nextHandle >= 1
  {
    match c {
      case RegisterFatBinary(f) =>
        if st.nextHandle == 1 {
          InitEstablishes(env, l, files, st.(nextHandle := 2));
        }
      case ParseBinary(h) =>
        ParseEffect(env, st, h);
    }
  }

  lemma {:induction false} RunKeepsSections(env: Config, l: seq<Section>, files: Files, calls: seq<Call>)
    requires !env.preload && OwnAll(files, Survivors(l, l, Cap(env)))
    requires Run(env, Fresh(l, [], files), calls).Success?
    ensures var st := Run(env, Fresh(l, [], files), calls).value;
      SectionsInv(env, l, files, st) && st.libSections == [] && st.nextHandle >= 1
  {
    if calls != [] {
      var front, c := calls[..|calls| - 1], calls[|calls| - 1];
      RunKeepsSections(env, l, files, front);
      StepKeepsSections(env, l, files, Run(env, Fresh(l, [], files), front).value, c);
    }
  }

  /** The plain pipeline: sections as extracted, PTX text parsed as merged. */
  predicate Plain(env: Config) {
    !env.preload && !env.versioned && !env.ptxplus && !env.cdp && env.overridePtx.None?
  }

  /** What a handle's first parse for a new file name comes to: an abort exactly when no PTX section of
      that name is eligible or an initialiser of the grown table fails its check; otherwise the merged text
      of the sections of the best eligible architecture is added to the table, and name and handle are bound. */
  ghost predicate FirstParseIs(env: Config, l: seq<Section>, files: Files, st: Api, h: nat)
    requires OwnAll(files, Survivors(l, l, Cap(env)))
  {
    var id, kept, r := NameOf(st, h), Survivors(l, l, Cap(env)), Parse(env, st, h);
    MatchesOwn(files, kept, id);
    var tab := DeclareAll(st.table, env.parser.fromText(MergedText(files, kept, id), h));
    if Best(l, id, Cap(env)).None? then r == Failure(NoPtxSection)
    else if !Loadable(tab, env.staticLimit) then r == Failure(LoadFault)
    else
      && r.Success? && r.value.table == tab && r.value.loads == st.loads + [Load(id, h, tab)]
      && r.value.loaded == st.loaded + {id} && r.value.code == st.code + {h}
  }

  lemma {:induction false} ParsedIsMergedText(env: Config, l: seq<Section>, files: Files, st: Api, id: string, h: nat)
    requires Plain(env) && OwnAll(files, Survivors(l, l, Cap(env)))
    requires SectionsInv(env, l, files, st) && st.libSections == [] && st.nextHandle > 1
    ensures var kept := Survivors(l, l, Cap(env));
      && OwnFiles(files, Matches(kept, id))
      && Parsed(env, st, id, h) ==
           if Best(l, id, Cap(env)).None? then Failure(NoPtxSection)
           else Success(env.parser.fromText(MergedText(files, kept, id), h))
  {
    var kept := Survivors(l, l, Cap(env));
    MatchesOwn(files, kept, id);
    PruningKeepsBest(l, Cap(env), id);
    OnePerIdFinds(kept, id);
    PtxIdsHold(kept);
    assert MatchesMerged(files, kept, PtxIds(kept), st.files, id);
    RunTextClean(files, Matches(kept, id));
    CStrWhole(MergedText(files, kept, id));
    if Matches(kept, id) != [] {
      assert OwnFile(files, LastMatch(kept, id).file);
    }
  }

  lemma {:induction false} FirstParseLoadsMergedText(
    env: Config, l: seq<Section>, files: Files, calls: seq<Call>, h: nat)
    requires Plain(env) && OwnAll(files, Survivors(l, l, Cap(env)))
    requires Run(env, Fresh(l, [], files), calls).Success?
    requires var st := Run(env, Fresh(l, [], files), calls).value;
      st.nextHandle > 1 && h !in st.registered && NameOf(st, h) !in st.loaded
    ensures FirstParseIs(env, l, files, Run(env, Fresh(l, [], files), calls).value, h)
  {
    var st := Run(env, Fresh(l, [], files), calls).value;
    RunKeepsSections(env, l, files, calls);
    ParsedIsMergedText(env, l, files, Asked(st, h), NameOf(st, h), h);
  }

  /** The declarations of the merged texts of the loads, in load order. */
  ghost function LoadsDeclare(env: Config, l: seq<Section>, files: Files, loads: seq<Load>): seq<Declaration>
    requires OwnAll(files, Survivors(l, l, Cap(env)))
  {
    if loads == [] then []
    else
      var last, kept := loads[|loads| - 1], Survivors(l, l, Cap(env));
      MatchesOwn(files, kept, last.name);
      LoadsDeclare(env, l, files, loads[..|loads| - 1])
        + env.parser.fromText(MergedText(files, kept, last.name), last.handle)
  }

  /** Each load was of a name with an eligible section, and added that name's merged text to the table. */
  ghost predicate LoadsAreMerged(env: Config, l: seq<Section>, files: Files, loads: seq<Load>)
    requires OwnAll(files, Survivors(l, l, Cap(env)))
  {
    loads == [] ||
    var last, front, kept := loads[|loads| - 1], loads[..|loads| - 1], Survivors(l, l, Cap(env));
    MatchesOwn(files, kept, last.name);
    && LoadsAreMerged(env, l, files, front)
    && Best(l, last.name, Cap(env)).Some?
    && last.table ==
         DeclareAll(LastTable(front), env.parser.fromText(MergedText(files, kept, last.name), last.handle))
  }

  /** The table after such loads is that of all their merged texts. */
  lemma {:induction false} TableOfLoads(env: Config, l: seq<Section>, files: Files, loads: seq<Load>)
    requires OwnAll(files, Survivors(l, l, Cap(env))) && LoadsAreMerged(env, l, files, loads)
    ensures LastTable(loads) == DeclareAll(EMPTY, LoadsDeclare(env, l, files, loads))
  {
    if loads != [] {
      var last, front, kept := loads[|loads| - 1], loads[..|loads| - 1], Survivors(l, l, Cap(env));
      TableOfLoads(env, l, files, front);
      MatchesOwn(files, kept, last.name);
      DeclareConcat(EMPTY, LoadsDeclare(env, l, files, front),
                    env.parser.fromText(MergedText(files, kept, last.name), last.handle));
    }
  }

  lemma {:induction false} LoadsMergedSnoc(env: Config, l: seq<Section>, files: Files, loads: seq<Load>, load: Load)
    requires OwnAll(files, Survivors(l, l, Cap(env))) && LoadsAreMerged(env, l, files, loads)
    requires Best(l, load.name, Cap(env)).Some?
    requires var kept := Survivors(l, l, Cap(env));
      && OwnFiles(files, Matches(kept, load.name))
      && load.table ==
           DeclareAll(LastTable(loads), env.parser.fromText(MergedText(files, kept, load.name), load.handle))
    ensures LoadsAreMerged(env, l, files, loads + [load])
  {
    assert (loads + [load])[..|loads|] == loads;
  }

  lemma OnlyIssuedBefore(calls: seq<Call>, c: Call)
    requires OnlyIssued(calls + [c])
    ensures OnlyIssued(calls)
    ensures c.ParseBinary? ==> 1 <= c.handle <= Registers(calls)
  {
    var all := calls + [c];
    assert all[..|calls|] == calls && all[|calls|] == c;
    forall k | 0 <= k < |calls| && calls[k].ParseBinary? ensures 1 <= calls[k].handle <= Registers(calls[..k]) {
      assert all[k] == calls[k] && all[..k] == calls[..k];
    }
  }

  /** A step adds no load, or the load of the name of a handle not parsed before. */
  lemma {:induction false} StepLoads(env: Config, st: Api, c: Call)
    requires Step(env, st, c).Success?
    ensures var next := Step(env, st, c).value;
      || next.loads == st.loads
      || (&& c.ParseBinary? && c.handle !in st.registered && NameOf(st, c.handle) !in st.loaded
          && next.loads == st.loads + [Load(NameOf(st, c.handle), c.handle, next.table)])
  {
    match c {
      case RegisterFatBinary(name) => RegisterEffect(env, st, name);
      case ParseBinary(h) => ParseEffect(env, st, h);
    }
  }

  lemma {:induction false} StepKeepsMerged(env: Config, l: seq<Section>, files: Files, calls: seq<Call>, c: Call)
    requires Plain(env) && OwnAll(files, Survivors(l, l, Cap(env)))
    requires Run(env, Fresh(l, [], files), calls).Success?
    requires var st := Run(env, Fresh(l, [], files), calls).value;
      && CacheInv(st) && LoadsAreMerged(env, l, files, st.loads) && Step(env, st, c).Success?
      && (c.ParseBinary? ==> st.nextHandle > 1)
    ensures LoadsAreMerged(env, l, files, Step(env, Run(env, Fresh(l, [], files), calls).value, c).value.loads)
  {
    var st := Run(env, Fresh(l, [], files), calls).value;
    StepLoads(env, st, c);
    if Step(env, st, c).value.loads != st.loads {
      var name := NameOf(st, c.handle);
      FirstParseLoadsMergedText(env, l, files, calls, c.handle);
      MatchesOwn(files, Survivors(l, l, Cap(env)), name);
      LoadsMergedSnoc(env, l, files, st.loads, Load(name, c.handle, Step(env, st, c).value.table));
    }
  }

  lemma {:induction false} RunLoadsMerged(env: Config, l: seq<Section>, files: Files, calls: seq<Call>)
    requires Plain(env) && OwnAll(files, Survivors(l, l, Cap(env)))
    requires OnlyIssued(calls) && Run(env, Fresh(l, [], files), calls).Success?
    ensures LoadsAreMerged(env, l, files, Run(env, Fresh(l, [], files), calls).value.loads)
  {
    if calls != [] {
      var front, c := calls[..|calls| - 1], calls[|calls| - 1];
      assert calls == front + [c];
      OnlyIssuedBefore(front, c);
      RunLoadsMerged(env, l, files, front);
      FreshIsConsistent(l, [], files);
      RunKeepsCache(env, Fresh(l, [], files), front);
      StepKeepsMerged(env, l, files, front, c);
    }
  }

  /** End to end, in every state the plain pipeline reaches over sections with files of their own: the one
      table is that of the merged texts of all names loaded so far, in load order, each parsed for the handle
      that first asked for its name. */
  lemma {:induction false} TableIsMergedTexts(env: Config, l: seq<Section>, files: Files, calls: seq<Call>)
    requires Plain(env) && OwnAll(files, Survivors(l, l, Cap(env)))
    requires OnlyIssued(calls) && Run(env, Fresh(l, [], files), calls).Success?
    ensures var st := Run(env, Fresh(l, [], files), calls).value;
      && LoadsAreMerged(env, l, files, st.loads)
      && st.table == DeclareAll(EMPTY, LoadsDeclare(env, l, files, st.loads))
  {
    RunLoadsMerged(env, l, files, calls);
    FreshIsConsistent(l, [], files);
    RunKeepsCache(env, Fresh(l, [], files), calls);
    TableOfLoads(env, l, files, Run(env, Fresh(l, [], files), calls).value.loads);
  }
}
