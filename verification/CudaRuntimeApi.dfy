/** The runtime API object: the loops that prune, merge and look up sections, and the calls that register
    and parse fat binaries (libcuda/cuda_runtime_api.cc). */
module CudaRuntimeApi {
  import opened Results
  import opened Sequences
  import opened Sections
  import opened DeviceMemory
  import opened SymbolTables
  import opened FatBinary
  import opened LoadedMemory

  /* The highest capability of each file name */

  /** `best` records the largest eligible PTX architecture of every identifier that has one. */
  ghost predicate Records(best: map<string, nat>, l: seq<Section>, cap: nat) {
    forall id :: Recorded(best, id) == Best(l, id, cap)
  }

  function Recorded(best: map<string, nat>, id: string): Option<nat> {
    if id in best then Some(best[id]) else None
  }

  /** `best` read with the default 0 of a C++ map. */
  ghost predicate ReadsAs(best: map<string, nat>, l: seq<Section>, cap: nat) {
    forall id :: (if id in best then best[id] else 0) == BestOrZero(l, id, cap)
  }

  lemma RecordStep(best: map<string, nat>, l: seq<Section>, s: Section, cap: nat)
    requires Records(best, l, cap)
    ensures var better := Eligible(s, s.id, cap) && (s.id !in best || best[s.id] < s.arch);
      Records(if better then best[s.id := s.arch] else best, l + [s], cap)
  {
    var better := Eligible(s, s.id, cap) && (s.id !in best || best[s.id] < s.arch);
    var after := if better then best[s.id := s.arch] else best;
    assert (l + [s])[..|l|] == l;
    forall id ensures Recorded(after, id) == Best(l + [s], id, cap) {
      assert Recorded(best, id) == Best(l, id, cap);
    }
  }

  lemma RecordsReadAs(best: map<string, nat>, l: seq<Section>, cap: nat)
    requires Records(best, l, cap)
    ensures ReadsAs(best, l, cap)
  {
    forall id ensures (if id in best then best[id] else 0) == BestOrZero(l, id, cap) {
      assert Recorded(best, id) == Best(l, id, cap);
    }
  }

  /* Merging */

  /** Where the merging loop stands after the sections `seen`. */
  ghost predicate MergeState(
    seen: seq<Section>, id: string, before: Files, merged: seq<Section>, old': Option<Section>, files: Files)
  {
    var ms := Matches(seen, id);
    && merged == Rest(seen, [id])
    && old' == (if ms == [] then None else Some(ms[|ms| - 1]))
    && Chain(before, ms) == Success(files)
  }

  lemma MergePasses(
    seen: seq<Section>, id: string, before: Files, merged: seq<Section>, old': Option<Section>, files: Files,
    s: Section)
    requires MergeState(seen, id, before, merged, old', files) && !IsMatch(s, id)
    ensures MergeState(seen + [s], id, before, merged + [s], old', files)
  {
    assert (seen + [s])[..|seen|] == seen;
  }

  lemma MergeTakes(
    seen: seq<Section>, id: string, before: Files, merged: seq<Section>, old': Option<Section>, files: Files,
    s: Section)
    requires MergeState(seen, id, before, merged, old', files) && IsMatch(s, id)
    ensures var next := if old'.None? then Success(files) else AppendTail(files, PtxFile(old'), s.file);
      && Chain(before, Matches(seen + [s], id)) == next
      && (next.Success? ==> MergeState(seen + [s], id, before, merged, Some(s), next.value))
  {
    assert (seen + [s])[..|seen|] == seen;
    var ms := Matches(seen, id);
    assert (ms + [s])[..|ms|] == ms;
    if ms != [] {
      assert (ms + [s])[|ms| - 1] == ms[|ms| - 1];
    }
  }

  /** A failure while merging a prefix is the failure of the whole. */
  lemma {:induction false} ChainFails(before: Files, l: seq<Section>, id: string, n: nat)
    requires n <= |l| && Chain(before, Matches(l[..n], id)).Failure?
    ensures Chain(before, Matches(l, id)) == Chain(before, Matches(l[..n], id))
  {
    if n < |l| {
      var front := l[..|l| - 1];
      assert front[..n] == l[..n];
      ChainFails(before, front, id, n);
      var ms := Matches(front, id);
      assert (ms + [l[|l| - 1]])[..|ms|] == ms;
    } else {
      assert l[..n] == l;
    }
  }

  lemma {:induction false} ChainAllFails(before: Files, l: seq<Section>, ids: seq<string>, n: nat)
    requires n <= |ids| && ChainAll(before, l, ids[..n]).Failure?
    ensures ChainAll(before, l, ids) == ChainAll(before, l, ids[..n])
  {
    if n < |ids| {
      assert ids[..|ids| - 1][..n] == ids[..n];
      ChainAllFails(before, l, ids[..|ids| - 1], n);
    } else {
      assert ids[..n] == ids;
    }
  }

  lemma IdsSnoc(l: seq<Section>, s: Section)
    ensures PtxIds(l + [s]) == if s.PTX? && s.id !in PtxIds(l) then PtxIds(l) + [s.id] else PtxIds(l)
  {
    assert (l + [s])[..|l|] == l;
  }

  /** With every identifier merged, the list is the ELF sections and the last PTX section of each. */
  lemma MergedIsOnePerId(l: seq<Section>)
    ensures Merged(l, PtxIds(l)) == OnePerId(l)
  {
    forall i | 0 <= i < |l| && l[i].PTX? ensures l[i].id in PtxIds(l) {
      PtxIdsCover(l, i);
    }
    RestOfAllIds(l, PtxIds(l));
  }

  lemma {:induction false} MergedNone(l: seq<Section>)
    ensures Merged(l, []) == l
  {
    if l != [] {
      MergedNone(l[..|l| - 1]);
      assert Lasts(l, []) == [];
      assert Merged(l[..|l| - 1], []) == Rest(l[..|l| - 1], []);
    }
  }

  /** Where merging stands once the first `i` identifiers are merged. */
  ghost predicate MergeProgress(
    before: Files, l: seq<Section>, ids: seq<string>, i: nat, files: Files, list: seq<Section>)
  {
    && i <= |ids| && Present(l, ids[..i])
    && ChainAll(before, l, ids[..i]) == Success(files)
    && list == Merged(l, ids[..i])
  }

  lemma MergeStarts(l: seq<Section>, ids: seq<string>, files: Files)
    ensures MergeProgress(files, l, ids, 0, files, l)
  {
    MergedNone(l);
    assert ids[..0] == [];
  }

  lemma MergeSteps(before: Files, l: seq<Section>, ids: seq<string>, i: nat, files: Files, list: seq<Section>)
    requires MergeProgress(before, l, ids, i, files, list) && i < |ids|
    requires Distinct(ids) && Present(l, ids)
    ensures var ms := Matches(l, ids[i]);
      && Matches(list, ids[i]) == ms && ms != []
      && Rest(list, [ids[i]]) + [ms[|ms| - 1]] == Merged(l, ids[..i + 1])
      && ChainAll(before, l, ids[..i + 1]) == Chain(files, ms)
  {
    assert ids[..i + 1] == ids[..i] + [ids[i]] && ids[..i + 1][..i] == ids[..i];
    MergeNext(l, ids[..i], ids[i]);
  }

  lemma {:induction false} MergeAdvances(
    before: Files, l: seq<Section>, ids: seq<string>, i: nat, files: Files, list: seq<Section>)
    requires MergeProgress(before, l, ids, i, files, list) && i < |ids|
    requires Distinct(ids) && Present(l, ids)
    ensures Matches(list, ids[i]) != []
    ensures var ms := Matches(list, ids[i]);
      match Chain(files, ms)
      case Failure(e) => ChainAll(before, l, ids) == Failure(e)
      case Success(f) => MergeProgress(before, l, ids, i + 1, f, Rest(list, [ids[i]]) + [ms[|ms| - 1]])
  {
    MergeSteps(before, l, ids, i, files, list);
    if Chain(files, Matches(list, ids[i])).Failure? {
      ChainAllFails(before, l, ids, i + 1);
    }
  }

  /* Parsing */

  lemma ParseKeeps(env: Config, st: Api, handle: nat)
    requires CacheInv(st)
    ensures Parse(env, st, handle).Success? ==> CacheInv(Parse(env, st, handle).value)
  {
    if Parse(env, st, handle).Success? {
      StepKeepsCache(env, st, FatBinary.ParseBinary(handle));
    }
  }

  class CudaRuntimeApi {
    const env: Config
    const memory: GlobalMemory
    ghost const initial: Bytes
    var cuobjdumpSectionList: seq<Section>
    var libSectionList: seq<Section>
    var files: Files
    var fatbinRegistered: set<nat>
    var fatbinmap: map<nat, string>
    var allFiles: SymbolTable?             // g_global_allfiles_symbol_table
    var nameSymtab: map<string, SymbolTable>
    var code: map<nat, SymbolTable>
    var lastHandle: nat
    var nextFatBinHandle: nat
    ghost var loads: seq<Load>

    ghost function Table(): SymbolTables.Table
      reads this, allFiles
    {
      if allFiles == null then EMPTY else allFiles.Contents()
    }

    ghost function View(): Api
      reads this, allFiles
    {
      Api(cuobjdumpSectionList, libSectionList, files, fatbinRegistered, fatbinmap, nameSymtab.Keys, code.Keys,
          lastHandle, nextFatBinHandle, Table(), loads)
    }

    /** There is one table: every loaded name and every parsed handle has it. */
    ghost predicate OneTable()
      reads this
    {
      && (forall f :: f in nameSymtab ==> nameSymtab[f] == allFiles)
      && (forall h :: h in code ==> code[h] == allFiles)
    }

    ghost predicate Valid()
      reads this, allFiles, memory
    {
      OneTable() && CacheInv(View()) && MemoryHolds(initial, loads, memory.bytes)
    }

    constructor (env: Config, memory: GlobalMemory, sections: seq<Section>, libSections: seq<Section>, files: Files)
      ensures this.env == env && this.memory == memory && initial == memory.bytes
      ensures Valid() && View() == Fresh(sections, libSections, files)
    {
      this.env, this.memory, initial := env, memory, memory.bytes;
      cuobjdumpSectionList, libSectionList, this.files := sections, libSections, files;
      fatbinRegistered, fatbinmap, allFiles, nameSymtab, code := {}, map[], null, map[], map[];
      lastHandle, nextFatBinHandle, loads := 0, 1, [];
    }

    method PruneSectionList() returns (r: Result<seq<Section>, SectionError>)
      ensures var kept := Survivors(cuobjdumpSectionList, cuobjdumpSectionList, Cap(env));
        r == if kept == [] then Failure(NothingLeft) else Success(kept)
    {
      var forcedMaxCapability := env.forcedMax;
      if env.ptxplus && (forcedMaxCapability == 0 || forcedMaxCapability >= 20) {
        forcedMaxCapability := 19;
      }
      var l := cuobjdumpSectionList;
      var sectionMap: map<string, nat> := map[];
      for i := 0 to |l|
        invariant Records(sectionMap, l[..i], forcedMaxCapability)
      {
        var s := l[i];
        assert l[..i + 1] == l[..i] + [s];
        RecordStep(sectionMap, l[..i], s, forcedMaxCapability);
        if s.PTX? && (s.arch <= forcedMaxCapability || forcedMaxCapability == 0) {
          if s.id !in sectionMap || sectionMap[s.id] < s.arch {
            sectionMap := sectionMap[s.id := s.arch];
          }
        }
      }
      assert l[..|l|] == l;
      RecordsReadAs(sectionMap, l, forcedMaxCapability);
      var pruned: seq<Section> := [];
      for i := 0 to |l|
        invariant ReadsAs(sectionMap, l, forcedMaxCapability)
        invariant pruned == Survivors(l[..i], l, forcedMaxCapability)
      {
        var s := l[i];
        assert l[..i + 1][..i] == l[..i];
        if s.id !in sectionMap {
          sectionMap := sectionMap[s.id := 0];
        }
        if s.arch == sectionMap[s.id] {
          pruned := pruned + [s];
        }
      }
      return if pruned == [] then Failure(NothingLeft) else Success(pruned);
    }

    /** Chains the files of an identifier's PTX sections and keeps only the last of these sections. */
    method MergeMatchingSections(identifier: string) returns (r: Result<seq<Section>, SectionError>)
      requires Matches(cuobjdumpSectionList, identifier) != []
      modifies this`files
      ensures var ms := Matches(cuobjdumpSectionList, identifier);
        match Chain(old(files), ms)
        case Failure(e) => r == Failure(e)
        case Success(f) => files == f && r == Success(Rest(cuobjdumpSectionList, [identifier]) + [ms[|ms| - 1]])
    {
      var l := cuobjdumpSectionList;
      var ptxcode := "";
      var oldSection: Option<Section> := None;
      var merged: seq<Section> := [];
      for i := 0 to |l|
        invariant MergeState(l[..i], identifier, old(files), merged, oldSection, files)
        invariant oldSection.None? ==> ptxcode == ""
      {
        var s := l[i];
        assert l[..i + 1] == l[..i] + [s];
        if s.PTX? && s.id == identifier {
          MergeTakes(l[..i], identifier, old(files), merged, oldSection, files, s);
          if oldSection.Some? {
            var text := ReadFile(files, PtxFile(oldSection));
            if text.Failure? {
              ChainFails(old(files), l, identifier, i + 1);
              return Failure(text.error);
            }
            ptxcode := text.value;
          }
          if |CStr(ptxcode)| >= HEADER {
            var appended := AppendFile(files, s.file, CStr(ptxcode)[HEADER..]);
            if appended.Failure? {
              ChainFails(old(files), l, identifier, i + 1);
              return Failure(appended.error);
            }
            files := appended.value;
          }
          oldSection := Some(s);
        } else {
          MergePasses(l[..i], identifier, old(files), merged, oldSection, files, s);
          merged := merged + [s];
        }
      }
      assert l[..|l|] == l;
      return Success(merged + [oldSection.value]);
    }

    /** The identifiers present in PTX sections, by first appearance. */
    method PtxIdentifiers() returns (identifier: seq<string>)
      ensures identifier == PtxIds(cuobjdumpSectionList)
    {
      var l := cuobjdumpSectionList;
      identifier := [];
      for i := 0 to |l|
        invariant identifier == PtxIds(l[..i])
      {
        assert l[..i + 1] == l[..i] + [l[i]];
        IdsSnoc(l[..i], l[i]);
        if l[i].PTX? && l[i].id !in identifier {
          identifier := identifier + [l[i].id];
        }
      }
      assert l[..|l|] == l;
    }

    /** Merges one more identifier and reassigns the list. */
    method MergeNextIdentifier(ghost before: Files, ghost l: seq<Section>, ids: seq<string>, i: nat)
      returns (r: Result<(), SectionError>)
      requires Distinct(ids) && Present(l, ids) && i < |ids|
      requires MergeProgress(before, l, ids, i, files, cuobjdumpSectionList)
      modifies this`files, this`cuobjdumpSectionList
      ensures r.Success? ==> MergeProgress(before, l, ids, i + 1, files, cuobjdumpSectionList)
      ensures r.Failure? ==> ChainAll(before, l, ids) == Failure(r.error)
    {
      MergeAdvances(before, l, ids, i, files, cuobjdumpSectionList);
      var merged := MergeMatchingSections(ids[i]);
      if merged.Failure? {
        return Failure(merged.error);
      }
      cuobjdumpSectionList := merged.value;
      return Success(());
    }

    /** Merges the PTX sections of each identifier in turn. */
    method MergeIdentifiers(identifier: seq<string>) returns (r: Result<(), SectionError>)
      requires Distinct(identifier) && Present(cuobjdumpSectionList, identifier)
      modifies this`files, this`cuobjdumpSectionList
      ensures match ChainAll(old(files), old(cuobjdumpSectionList), identifier)
        case Failure(e) => r == Failure(e)
        case Success(f) =>
          r.Success? && files == f && cuobjdumpSectionList == Merged(old(cuobjdumpSectionList), identifier)
    {
      ghost var l := cuobjdumpSectionList;
      MergeStarts(l, identifier, files);
      for i := 0 to |identifier|
        invariant MergeProgress(old(files), l, identifier, i, files, cuobjdumpSectionList)
      {
        var merged := MergeNextIdentifier(old(files), l, identifier, i);
        if merged.Failure? {
          return merged;
        }
      }
      assert identifier[..|identifier|] == identifier;
      return Success(());
    }

    /** Merges the PTX sections of every identifier. */
    method MergeSections() returns (r: Result<seq<Section>, SectionError>)
      modifies this`files, this`cuobjdumpSectionList
      ensures match ChainAll(old(files), old(cuobjdumpSectionList), PtxIds(old(cuobjdumpSectionList)))
        case Failure(e) => r == Failure(e)
        case Success(f) =>
          && files == f
          && r == Success(OnePerId(old(cuobjdumpSectionList)))
          && cuobjdumpSectionList == OnePerId(old(cuobjdumpSectionList))
    {
      var identifier := PtxIdentifiers();
      PtxIdsHold(cuobjdumpSectionList);
      MergedIsOnePerId(cuobjdumpSectionList);
      var merged := MergeIdentifiers(identifier);
      return if merged.Failure? then Failure(merged.error) else Success(cuobjdumpSectionList);
    }

    method FindPTXSectionInList(sectionlist: seq<Section>, identifier: string) returns (found: Option<Section>)
      ensures found == FindPtx(sectionlist, identifier, env.cdp)
    {
      for i := 0 to |sectionlist|
        invariant FindPtx(sectionlist, identifier, env.cdp) == FindPtx(sectionlist[i..], identifier, env.cdp)
      {
        if sectionlist[i].PTX? {
          if sectionlist[i].id == identifier {
            return Some(sectionlist[i]);
          } else if env.cdp {
            return Some(sectionlist[i]);
          }
        }
      }
      return None;
    }

    method FindELFSectionInList(sectionlist: seq<Section>, identifier: string) returns (found: Option<Section>)
      ensures found == FindElf(sectionlist, identifier) && IsFirstElf(sectionlist, identifier, found)
    {
      FindElfIsFirst(sectionlist, identifier);
      for i := 0 to |sectionlist|
        invariant FindElf(sectionlist, identifier) == FindElf(sectionlist[i..], identifier)
      {
        if sectionlist[i].ELF? && sectionlist[i].id == identifier {
          return Some(sectionlist[i]);
        }
      }
      return None;
    }

    method FindPTXSection(identifier: string) returns (r: Result<Section, ApiError>)
      ensures match FindPtxSection(env, View(), identifier)
        case None => r == Failure(NoPtxSection)
        case Some(s) => r == Success(s)
      ensures var found := if r.Success? then Some(r.value) else None;
        IsFirstPtx(cuobjdumpSectionList + libSectionList, identifier, env.cdp, found)
    {
      FindPtxIsFirst(cuobjdumpSectionList, identifier, env.cdp);
      FindPtxIsFirst(libSectionList, identifier, env.cdp);
      FirstPtxOfTwo(cuobjdumpSectionList, libSectionList, identifier, env.cdp,
                    FindPtx(cuobjdumpSectionList, identifier, env.cdp), FindPtx(libSectionList, identifier, env.cdp));
      var sec := FindPTXSectionInList(cuobjdumpSectionList, identifier);
      if sec.Some? {
        return Success(sec.value);
      }
      sec := FindPTXSectionInList(libSectionList, identifier);
      return if sec.Some? then Success(sec.value) else Failure(NoPtxSection);
    }

    method FindELFSection(identifier: string) returns (r: Result<Section, ApiError>)
      ensures match FindElfSection(View(), identifier)
        case None => r == Failure(SectionFault(SectionNotFound))
        case Some(s) => r == Success(s)
      ensures var found := if r.Success? then Some(r.value) else None;
        IsFirstElf(cuobjdumpSectionList + libSectionList, identifier, found)
    {
      FindElfIsFirst(cuobjdumpSectionList, identifier);
      FindElfIsFirst(libSectionList, identifier);
      FirstElfOfTwo(cuobjdumpSectionList, libSectionList, identifier,
                    FindElf(cuobjdumpSectionList, identifier), FindElf(libSectionList, identifier));
      var sec := FindELFSectionInList(cuobjdumpSectionList, identifier);
      if sec.Some? {
        return Success(sec.value);
      }
      sec := FindELFSectionInList(libSectionList, identifier);
      return if sec.Some? then Success(sec.value) else Failure(SectionFault(SectionNotFound));
    }

    method CuobjdumpInit() returns (r: Result<(), ApiError>)
      modifies this`files, this`cuobjdumpSectionList
      ensures match Init(env, old(View()))
        case Failure(e) => r == Failure(e)
        case Success(next) => r.Success? && View() == next
    {
      if !env.preload {
        var pruned := PruneSectionList();
        if pruned.Failure? {
          return Failure(SectionFault(pruned.error));
        }
        cuobjdumpSectionList := pruned.value;
        var merged := MergeSections();
        if merged.Failure? {
          return Failure(SectionFault(merged.error));
        }
        cuobjdumpSectionList := merged.value;
        assert View() == old(View()).(sections := cuobjdumpSectionList, files := files);
      }
      return Success(());
    }

    method RegisterFatBinary(filename: string) returns (r: Result<nat, ApiError>)
      requires Valid()
      modifies this`files, this`cuobjdumpSectionList, this`nextFatBinHandle, this`fatbinmap
      ensures match Register(env, old(View()), filename)
        case Failure(e) => r == Failure(e)
        case Success(next) => r == Success(old(nextFatBinHandle)) && View() == next && Valid()
    {
      var fatCubinHandle := nextFatBinHandle;
      nextFatBinHandle := nextFatBinHandle + 1;
      if fatCubinHandle == 1 {
        var initialised := CuobjdumpInit();
        if initialised.Failure? {
          return Failure(initialised.error);
        }
      }
      fatbinmap := fatbinmap[fatCubinHandle := filename];
      ghost var before := old(View());
      RegisterEffect(env, before, filename);
      RegisterKeepsCache(before, filename, View());
      return Success(fatCubinHandle);
    }

    /** Parses declarations into the table of all files, which the first parse creates. */
    method InitParser(ds: seq<Declaration>) returns (symtab: SymbolTable)
      requires OneTable()
      modifies this`allFiles, allFiles
      ensures symtab == allFiles && Table() == DeclareAll(old(Table()), ds)
      ensures if old(allFiles) == null then fresh(allFiles) else allFiles == old(allFiles)
    {
      if allFiles == null {
        allFiles := new SymbolTable();
      }
      allFiles.AddAll(ds);
      return allFiles;
    }

    /** The text a first parse of `fname` parses, and what it declares. */
    method ReadDeclarations(fname: string, handle: nat) returns (r: Result<seq<Declaration>, ApiError>)
      requires !env.versioned
      ensures r == Parsed(env, View(), fname, handle)
    {
      var ptx: Option<Section> := None;
      if !env.preload {
        var found := FindPTXSection(fname);
        if found.Failure? {
          return Failure(found.error);
        }
        ptx := Some(found.value);
      }
      if ptx.None? && (env.overridePtx.None? || env.ptxplus) {
        return Failure(NoPtxSection);
      }
      var ptxcode := ReadFile(files, if env.overridePtx.Some? then env.overridePtx.value else PtxFile(ptx));
      if ptxcode.Failure? {
        return Failure(SectionFault(ptxcode.error));
      }
      if env.ptxplus {
        var elf := FindELFSection(SectionId(ptx));
        if elf.Failure? {
          return Failure(elf.error);
        }
        var converted := env.parser.toPtxplus(PtxFile(ptx), ElfFile(Some(elf.value)), SassFile(Some(elf.value)));
        return Success(env.parser.fromText(CStr(converted), handle));
      }
      return Success(env.parser.fromText(CStr(ptxcode.value), handle));
    }

    /** Parses the PTX files by version, one after the other, into the one table. */
    method ParseVersionFiles() returns (symtab: Option<SymbolTable>)
      requires OneTable()
      modifies this`allFiles, allFiles
      ensures symtab.None? <==> env.versionFiles == []
      ensures symtab.Some? ==> symtab.value == allFiles
      ensures Table() == DeclareAll(old(Table()), FilesDeclare(env, env.versionFiles))
      ensures allFiles == old(allFiles) || (old(allFiles) == null && fresh(allFiles))
    {
      symtab := None;
      var names := env.versionFiles;
      for i := 0 to |names|
        invariant symtab.None? <==> i == 0
        invariant symtab.Some? ==> symtab.value == allFiles
        invariant Table() == DeclareAll(old(Table()), FilesDeclare(env, names[..i]))
        invariant allFiles == old(allFiles) || (old(allFiles) == null && fresh(allFiles))
        invariant OneTable()
      {
        assert names[..i + 1][..i] == names[..i];
        DeclareConcat(old(Table()), FilesDeclare(env, names[..i]), env.parser.fromFile(names[i]));
        var parsed := InitParser(env.parser.fromFile(names[i]));
        symtab := Some(parsed);
      }
      assert names[..|names|] == names;
    }

    /** Parses what a first parse of `fname` parses into the one table. */
    method LoadSymbolTable(fname: string, handle: nat) returns (r: Result<SymbolTable, ApiError>)
      requires OneTable()
      modifies this`allFiles, allFiles
      ensures match Parsed(env, old(View()), fname, handle)
        case Failure(e) => r == Failure(e)
        case Success(ds) => r.Success? && r.value == allFiles && Table() == DeclareAll(old(Table()), ds)
      ensures allFiles == old(allFiles) || (old(allFiles) == null && fresh(allFiles))
    {
      if env.versioned {
        var symtab := ParseVersionFiles();
        return if symtab.Some? then Success(symtab.value) else Failure(NoSymbolTable);
      }
      var ds := ReadDeclarations(fname, handle);
      if ds.Failure? {
        return Failure(ds.error);
      }
      var parsed := InitParser(ds.value);
      return Success(parsed);
    }

    /** Writes the initialisers of a table: the globals, then the constants. */
    method InitialiseMemory(symtab: SymbolTable) returns (ok: bool)
      modifies memory
      ensures ok <==> Loadable(symtab.Contents(), env.staticLimit)
      ensures ok ==> Written(old(memory.bytes), TableWrites(symtab.Contents()), memory.bytes)
    {
      var globals := LoadStaticGlobals(memory, symtab.globals, env.staticLimit);
      if globals.Failure? {
        return false;
      }
      ghost var between := memory.bytes;
      var constants := LoadConstants(memory, symtab.consts, env.staticLimit);
      if constants.Failure? {
        return false;
      }
      WrittenTrans(old(memory.bytes), ChunksAll(symtab.globals), between,
                   ChunksAll(Constants(symtab.consts)), memory.bytes);
      return true;
    }

    method AddBinary(symtab: SymbolTable, handle: nat)
      modifies this`code, this`lastHandle
      ensures code == old(code)[handle := symtab]
      ensures View() == FatBinary.AddBinary(old(View()), handle)
    {
      code := code[handle := symtab];
      lastHandle := handle;
    }

    method ParseBinary(handle: nat) returns (r: Result<(), ApiError>)
      requires Valid()
      modifies this`fatbinRegistered, this`fatbinmap, this`nameSymtab, this`code, this`lastHandle, this`loads,
               this`allFiles, allFiles, memory
      ensures match Parse(env, old(View()), handle)
        case Failure(e) => r == Failure(e)
        case Success(next) => r.Success? && View() == next && Valid()
    {
      ghost var before := View();
      if handle in fatbinRegistered {
        return Success(());
      }
      fatbinRegistered := fatbinRegistered + {handle};
      if handle !in fatbinmap {
        fatbinmap := fatbinmap[handle := ""];
      }
      var fname := fatbinmap[handle];
      assert View() == Asked(before, handle);
      ParseKeeps(env, before, handle);
      if fname in nameSymtab {
        ParseCached(fname, handle, before);
        return Success(());
      }
      r := ParseNewName(fname, handle, before);
    }

    /** The part of parsing that runs for a file name seen before. */
    method ParseCached(fname: string, handle: nat, ghost before: Api)
      requires OneTable() && fname in nameSymtab && View() == Asked(before, handle)
      requires handle !in before.registered && fname == NameOf(before, handle)
      modifies this`code, this`lastHandle
      ensures OneTable() && Parse(env, before, handle) == Success(View())
    {
      AddBinary(nameSymtab[fname], handle);
    }

    /** The part of parsing that runs for a file name not seen before. */
    method ParseNewName(fname: string, handle: nat, ghost before: Api) returns (r: Result<(), ApiError>)
      requires CacheInv(before) && OneTable() && MemoryHolds(initial, before.loads, memory.bytes)
      requires handle !in before.registered && fname == NameOf(before, handle) && fname !in before.loaded
      requires View() == Asked(before, handle)
      modifies this`nameSymtab, this`code, this`lastHandle, this`loads, this`allFiles, allFiles, memory
      ensures match Parse(env, before, handle)
        case Failure(e) => r == Failure(e)
        case Success(next) => r.Success? && View() == next && OneTable() && MemoryHolds(initial, loads, memory.bytes)
    {
      var symtab := LoadSymbolTable(fname, handle);
      if symtab.Failure? {
        return Failure(symtab.error);
      }
      var loaded := FinishLoad(fname, handle, symtab.value);
      return if loaded then Success(()) else Failure(LoadFault);
    }

    /** Binds a handle to the table just parsed into, initialises memory and caches the name. */
    method FinishLoad(fname: string, handle: nat, symtab: SymbolTable) returns (ok: bool)
      requires OneTable() && symtab == allFiles && MemoryHolds(initial, loads, memory.bytes)
      modifies this`nameSymtab, this`code, this`lastHandle, this`loads, memory
      ensures ok <==> Loadable(Table(), env.staticLimit)
      ensures Table() == old(Table())
      ensures ok ==>
        && View() == Loaded(old(View()), fname, handle, Table())
        && OneTable() && MemoryHolds(initial, loads, memory.bytes)
    {
      AddBinary(symtab, handle);
      ok := InitialiseMemory(symtab);
      if ok {
        LoadKeepsMemory(initial, loads, old(memory.bytes), Load(fname, handle, Table()), memory.bytes);
        nameSymtab := nameSymtab[fname := symtab];
        loads := loads + [Load(fname, handle, Table())];
      }
    }
  }
}
