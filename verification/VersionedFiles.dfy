/** What ends up in the one symbol table when fat binaries come with PTX files by version, and what text the
    other builds parse (libcuda/cuda_runtime_api.cc). */
module VersionedFiles {
  import opened Results
  import opened Sections
  import opened DeviceMemory
  import opened SymbolTables
  import opened FatBinary

  /* Several files, one list of declarations */

  /** Files parsed one after the other declare what each declares, in that order. */
  lemma {:induction false} FilesInTurn(env: Config, a: seq<string>, b: seq<string>, name: string)
    ensures FilesDeclare(env, []) == [] && FilesDeclare(env, [name]) == env.parser.fromFile(name)
    ensures FilesDeclare(env, a + b) == FilesDeclare(env, a) + FilesDeclare(env, b)
  {
    assert [name][..0] == [];
    if b == [] {
      assert a + b == a;
    } else {
      FilesInTurn(env, a, b[..|b| - 1], name);
      assert (a + b)[..|a + b| - 1] == a + b[..|b| - 1];
    }
  }

  /** Some file declares the variable. */
  ghost predicate InSomeFile(env: Config, files: seq<string>, name: string) {
    exists k :: 0 <= k < |files| && Mentions(env.parser.fromFile(files[k]), name)
  }

  /** The first file that declares the variable does so with `d` first. */
  ghost predicate FirstInFiles(env: Config, files: seq<string>, name: string, d: Declaration) {
    exists k :: 0 <= k < |files| && IsFirst(env.parser.fromFile(files[k]), name, d)
      && NoFileBefore(env, files, name, k)
  }

  ghost predicate NoFileBefore(env: Config, files: seq<string>, name: string, k: nat)
    requires k < |files|
  {
    forall j :: 0 <= j < k ==> !Mentions(env.parser.fromFile(files[j]), name)
  }

  /** The last file that gives the variable an initialiser gives `init` last; `init` is empty if none does. */
  ghost predicate LastInFiles(env: Config, files: seq<string>, name: string, init: seq<Operand>) {
    if init == [] then NoFileGives(env, files, name, 0)
    else
      exists k :: 0 <= k < |files| && IsLastGiven(env.parser.fromFile(files[k]), name, init)
        && NoFileGives(env, files, name, k + 1)
  }

  ghost predicate NoFileGives(env: Config, files: seq<string>, name: string, from: nat) {
    forall j :: from <= j < |files| ==> IsLastGiven(env.parser.fromFile(files[j]), name, [])
  }

  /* Declarations in a row */

  lemma {:induction false} MentionsConcat(a: seq<Declaration>, b: seq<Declaration>, name: string)
    ensures Mentions(a + b, name) <==> Mentions(a, name) || Mentions(b, name)
  {
    if k :| 0 <= k < |a| && a[k].name == name {
      assert (a + b)[k].name == name;
    }
    if k :| 0 <= k < |b| && b[k].name == name {
      assert (a + b)[|a| + k].name == name;
    }
  }

  lemma {:induction false} FirstOfConcat(a: seq<Declaration>, b: seq<Declaration>, name: string, d: Declaration)
    requires IsFirst(a + b, name, d)
    ensures IsFirst(a, name, d) || (!Mentions(a, name) && IsFirst(b, name, d))
  {
    var k :| 0 <= k < |a + b| && (a + b)[k] == d && d.name == name && NotBefore(a + b, name, k);
    if k < |a| {
      forall i | 0 <= i < k ensures a[i].name != name {
        assert (a + b)[i] == a[i];
      }
      assert a[k] == d && NotBefore(a, name, k);
    } else {
      forall i | 0 <= i < |a| ensures a[i].name != name {
        assert (a + b)[i] == a[i];
      }
      forall i | 0 <= i < k - |a| ensures b[i].name != name {
        assert (a + b)[|a| + i] == b[i];
      }
      assert b[k - |a|] == d && NotBefore(b, name, k - |a|);
    }
  }

  lemma {:induction false} LastOfConcat(a: seq<Declaration>, b: seq<Declaration>, name: string)
    ensures LastInitializer(a + b, name) ==
      if LastInitializer(b, name) != [] then LastInitializer(b, name) else LastInitializer(a, name)
  {
    if b == [] {
      assert a + b == a;
    } else {
      LastOfConcat(a, b[..|b| - 1], name);
      assert (a + b)[..|a + b| - 1] == a + b[..|b| - 1];
    }
  }

  /* The declarations of all files */

  lemma {:induction false} FilesMention(env: Config, files: seq<string>, name: string)
    ensures Mentions(FilesDeclare(env, files), name) <==> InSomeFile(env, files, name)
  {
    if files != [] {
      var n := |files| - 1;
      var front := files[..n];
      FilesMention(env, front, name);
      MentionsConcat(FilesDeclare(env, front), env.parser.fromFile(files[n]), name);
      if k :| 0 <= k < n && Mentions(env.parser.fromFile(front[k]), name) {
        assert Mentions(env.parser.fromFile(files[k]), name);
      }
      if k :| 0 <= k < |files| && Mentions(env.parser.fromFile(files[k]), name) {
        assert k < n ==> Mentions(env.parser.fromFile(front[k]), name);
      }
    }
  }

  lemma {:induction false} FirstOfFiles(env: Config, files: seq<string>, name: string, d: Declaration)
    requires IsFirst(FilesDeclare(env, files), name, d)
    ensures FirstInFiles(env, files, name, d)
  {
    var n := |files| - 1;
    var front := files[..n];
    var before := FilesDeclare(env, front);
    FirstOfConcat(before, env.parser.fromFile(files[n]), name, d);
    FilesMention(env, front, name);
    if IsFirst(before, name, d) {
      FirstOfFiles(env, front, name, d);
      var k :| 0 <= k < n && IsFirst(env.parser.fromFile(front[k]), name, d) && NoFileBefore(env, front, name, k);
      assert front[k] == files[k] && NoFileBefore(env, files, name, k);
    } else {
      forall j | 0 <= j < n ensures !Mentions(env.parser.fromFile(files[j]), name) {
        assert front[j] == files[j];
      }
      assert NoFileBefore(env, files, name, n);
    }
  }

  lemma {:induction false} LastOfFiles(env: Config, files: seq<string>, name: string)
    ensures LastInFiles(env, files, name, LastInitializer(FilesDeclare(env, files), name))
  {
    if files != [] {
      var n := |files| - 1;
      var front, last := files[..n], env.parser.fromFile(files[n]);
      LastOfFiles(env, front, name);
      LastOfConcat(FilesDeclare(env, front), last, name);
      LastIsGiven(last, name);
      LastFileSnoc(env, front, files[n], name, LastInitializer(FilesDeclare(env, front), name));
      assert files == front + [files[n]];
    }
  }

  lemma {:induction false} LastFileSnoc(
    env: Config, files: seq<string>, f: string, name: string, init: seq<Operand>)
    requires LastInFiles(env, files, name, init)
    ensures var given := LastInitializer(env.parser.fromFile(f), name);
      LastInFiles(env, files + [f], name, if given != [] then given else init)
  {
    var all, given := files + [f], LastInitializer(env.parser.fromFile(f), name);
    LastIsGiven(env.parser.fromFile(f), name);
    assert all[|files|] == f;
    if given != [] {
      assert NoFileGives(env, all, name, |files| + 1);
    } else if init != [] {
      var k :| 0 <= k < |files| && IsLastGiven(env.parser.fromFile(files[k]), name, init)
        && NoFileGives(env, files, name, k + 1);
      assert all[k] == files[k] && NoFileGives(env, all, name, k + 1);
    }
  }

  /* The table of versioned builds */

  /** Every load of a versioned build left the same table: that of all its files. */
  ghost predicate LoadsAreFiles(env: Config, loads: seq<Load>) {
    forall k :: 0 <= k < |loads| ==> loads[k].table == DeclareAll(EMPTY, FilesDeclare(env, env.versionFiles))
  }

  /** The files are parsed again for every new name, which changes nothing. */
  lemma {:induction false} StepLoadsFiles(env: Config, st: Api, c: Call)
    requires env.versioned && CacheInv(st) && LoadsAreFiles(env, st.loads) && Step(env, st, c).Success?
    ensures LoadsAreFiles(env, Step(env, st, c).value.loads)
  {
    StepLoads(env, st, c);
    var next := Step(env, st, c).value;
    if next.loads != st.loads {
      var ds := FilesDeclare(env, env.versionFiles);
      assert next.table == DeclareAll(st.table, ds);
      DeclaredTwice(ds);
    }
  }

  lemma {:induction false} RunLoadsFiles(env: Config, start: Api, calls: seq<Call>)
    requires start == Fresh(start.sections, start.libSections, start.files)
    requires env.versioned && Run(env, start, calls).Success?
    ensures LoadsAreFiles(env, Run(env, start, calls).value.loads)
  {
    if calls != [] {
      var front := calls[..|calls| - 1];
      RunLoadsFiles(env, start, front);
      FreshIsConsistent(start.sections, start.libSections, start.files);
      RunKeepsCache(env, start, front);
      StepLoadsFiles(env, Run(env, start, front).value, calls[|calls| - 1]);
    }
  }

  /** The symbol is as the first file that declares it has it, with the initialiser the files give it last. */
  ghost predicate AsInFiles(env: Config, s: Symbol) {
    && (exists d :: FirstInFiles(env, env.versionFiles, s.name, d) && s.isConst == d.isConst && s.bits == d.bits
          && s.reserved == (if d.noDim then 0 else d.size) && s.placed == !(d.isConst && d.noDim))
    && LastInFiles(env, env.versionFiles, s.name, s.initializer)
  }

  lemma {:induction false} DeclaredInFiles(env: Config, s: Symbol)
    requires AsDeclared(FilesDeclare(env, env.versionFiles), s)
    ensures AsInFiles(env, s)
  {
    var ds := FilesDeclare(env, env.versionFiles);
    var d :| IsFirst(ds, s.name, d) && s.isConst == d.isConst && s.bits == d.bits
      && s.reserved == SizeOf(d) && s.placed == !(d.isConst && d.noDim);
    FirstOfFiles(env, env.versionFiles, s.name, d);
    LastOfFiles(env, env.versionFiles, s.name);
  }

  /** In every state a versioned build reaches, however many names it has loaded, the table holds exactly the
      variables of its files, each shaped by the first file that declares it and with the last initialiser
      given, in file order; before the first load it is empty. */
  lemma {:induction false} VersionedTable(env: Config, start: Api, calls: seq<Call>, name: string)
    requires start == Fresh(start.sections, start.libSections, start.files)
    requires env.versioned && Run(env, start, calls).Success?
    ensures var st := Run(env, start, calls).value;
      if st.loads == [] then st.table == EMPTY
      else
        && (Declares(st.table, name) <==> InSomeFile(env, env.versionFiles, name))
        && (forall i :: 0 <= i < |st.table.globals| ==> AsInFiles(env, st.table.globals[i]))
        && (forall i :: 0 <= i < |st.table.consts| ==> AsInFiles(env, st.table.consts[i]))
  {
    var st, ds := Run(env, start, calls).value, FilesDeclare(env, env.versionFiles);
    RunLoadsFiles(env, start, calls);
    FreshIsConsistent(start.sections, start.libSections, start.files);
    RunKeepsCache(env, start, calls);
    if st.loads != [] {
      TableAsDeclared(ds, name);
      FilesMention(env, env.versionFiles, name);
      forall s | s in st.table.globals || s in st.table.consts ensures AsInFiles(env, s) {
        assert AsDeclared(ds, s);
        DeclaredInFiles(env, s);
      }
    }
  }

  /** The table of a versioned build is the same after the first load as after any later one. */
  lemma {:induction false} VersionedTableFixed(env: Config, start: Api, calls: seq<Call>, k: nat)
    requires start == Fresh(start.sections, start.libSections, start.files)
    requires env.versioned && Run(env, start, calls).Success?
    requires k < |Run(env, start, calls).value.loads|
    ensures var st := Run(env, start, calls).value; st.table == st.loads[k].table
  {
    RunLoadsFiles(env, start, calls);
    FreshIsConsistent(start.sections, start.libSections, start.files);
    RunKeepsCache(env, start, calls);
  }

  /** With preloaded sections, no run changes them or their files. */
  lemma {:induction false} RunKeepsPreloaded(env: Config, start: Api, calls: seq<Call>)
    requires env.preload && Run(env, start, calls).Success?
    ensures var st := Run(env, start, calls).value;
      st.sections == start.sections && st.libSections == start.libSections && st.files == start.files
  {
    if calls != [] {
      var front, c := calls[..|calls| - 1], calls[|calls| - 1];
      RunKeepsPreloaded(env, start, front);
      var st := Run(env, start, front).value;
      match c {
        case RegisterFatBinary(name) => RegisterEffect(env, st, name);
        case ParseBinary(h) => ParseEffect(env, st, h);
      }
    }
  }

  /* The text parsed without files by version */

  /** The sections the lookups see: the program's, then the library's. */
  function AllSections(st: Api): seq<Section> {
    st.sections + st.libSections
  }

  lemma {:induction false} PtxLookup(env: Config, st: Api, id: string, ptx: Option<Section>)
    requires IsFirstPtx(AllSections(st), id, env.cdp, ptx)
    ensures FindPtxSection(env, st, id) == ptx
  {
    FindPtxIsFirst(st.sections, id, env.cdp);
    FindPtxIsFirst(st.libSections, id, env.cdp);
    FirstPtxOfTwo(st.sections, st.libSections, id, env.cdp,
                  FindPtx(st.sections, id, env.cdp), FindPtx(st.libSections, id, env.cdp));
    FirstPtxUnique(AllSections(st), id, env.cdp, ptx, FindPtxSection(env, st, id));
  }

  lemma {:induction false} ElfLookup(st: Api, id: string, elf: Option<Section>)
    requires IsFirstElf(AllSections(st), id, elf)
    ensures FindElfSection(st, id) == elf
  {
    FindElfIsFirst(st.sections, id);
    FindElfIsFirst(st.libSections, id);
    FirstElfOfTwo(st.sections, st.libSections, id, FindElf(st.sections, id), FindElf(st.libSections, id));
    FirstElfUnique(AllSections(st), id, elf, FindElfSection(st, id));
  }

  /** The text is read from the override file if one is in force, else from the first PTX section of the name;
      for PTXPlus it is checked in the same way, but what is parsed is the conversion of that section's file
      with the two files of the first ELF section of its identifier. */
  lemma {:induction false} ParsedExactly(
    env: Config, st: Api, fname: string, handle: nat, ptx: Section, elf: Option<Section>)
    requires !env.versioned && !env.preload
    requires IsFirstPtx(AllSections(st), fname, env.cdp, Some(ptx)) && IsFirstElf(AllSections(st), ptx.id, elf)
    ensures var name := if env.overridePtx.Some? then env.overridePtx.value else ptx.file;
      Parsed(env, st, fname, handle) ==
        if Unreadable(st.files, name) then Failure(SectionFault(CannotReadFile))
        else if !env.ptxplus then Success(env.parser.fromText(CStr(st.files[name]), handle))
        else if elf.None? then Failure(SectionFault(SectionNotFound))
        else
          Success(env.parser.fromText(
            CStr(env.parser.toPtxplus(ptx.file, elf.value.elfFile, elf.value.sassFile)), handle))
  {
    PtxLookup(env, st, fname, Some(ptx));
    ElfLookup(st, ptx.id, elf);
  }

  /** Without a PTX section there is nothing to parse; with preloaded sections none is looked for, and only the
      override file is parsed, and only without PTXPlus. */
  lemma {:induction false} ParsedWithoutSection(env: Config, st: Api, fname: string, handle: nat)
    requires !env.versioned && (env.preload || IsFirstPtx(AllSections(st), fname, env.cdp, None))
    ensures Parsed(env, st, fname, handle) ==
      if !env.preload || env.ptxplus || env.overridePtx.None? then Failure(NoPtxSection)
      else if Unreadable(st.files, env.overridePtx.value) then Failure(SectionFault(CannotReadFile))
      else Success(env.parser.fromText(CStr(st.files[env.overridePtx.value]), handle))
  {
    if !env.preload {
      PtxLookup(env, st, fname, None);
    }
  }
}
