# GPGPU-Sim: fat binaries, launches and logs

A Dafny model of three parts of GPGPU-Sim and of the properties they rely on.

* **Fat binaries.** The sections cuobjdump extracts are pruned to the best architecture per identifier,
  the PTX files of one identifier are merged by appending, every text is parsed into one shared symbol
  table that places its variables, and registering and parsing run over a cache of the names loaded, each
  load writing the table's initialisers into device memory (`Sections`, `MergedFiles`, `SymbolTables`,
  `FatBinary`, `HandleNames`, `VersionedFiles`, `DeviceMemory`, `LoadedMemory`, and the class in
  `CudaRuntimeApi`).
* **Launches.** Configure, set-argument and launch calls work on a stack; arguments are bound to
  parameters that keep their values between launches; kernels are numbered and pushed, restored or
  skipped (`KernelParams`, `LaunchStack`, `LaunchWindow`, `DriverLaunch`, `LaunchCalls`, and the class in
  `CudaLaunch`).
* **Logs.** AerialVision turns flat, NULL-separated streams into tables, bins long rows, files DRAM
  values by partition and by chip and bank, projects PC histograms from PTX to CUDA lines, accumulates
  them over kernels, and stitches and differences counters that restart at every kernel
  (`LogStreams`, `DramLogs`, `StreamCells`, `BankKeys`, `ChipBanks`, `LineMaps`, `Cflog`, `CflogTotals`,
  `CflogPipeline`, `KernelAxis`).

Code that updates objects, arrays or files in place is written as classes and methods with loops; each
method is proved against a specification function, and the properties are proved about that function and
over whole runs. An exception or an abort is a `Failure`. C `unsigned` arithmetic is written out modulo
2^32 where it decides something. `Results`, `Sequences`, `Arithmetic` and `Sums` hold what several modules
share.

Where the code does not do what it seems meant to do, the model follows the code. Each of these is stated
with the exact condition under which it goes well, beside a case where it does not:

* a plateau of the cycle axis starts a kernel for `findKernalLocs` (`>=`) but is no drop for
  `takeDerivative` (`<`), so stitching and then differencing can differ from differencing
  (`DerivativeIgnoresStitching`, `PlateauDisagrees`);
* the CUDA histogram stops before the last CUDA line (`ProjectionComplete`, `OnlyLineDropped`);
* a later kernel that does not fit into the first one's table, or overflows a cell, is added to the PTX total
  in part and to the CUDA total not at all (`TotalsAgreeExactly`, `LongerKernelDiverges`);
* a PTX text shorter than its 50-byte header takes bytes of the texts before it with it
  (`MergeClosedForm`, `ShortMiddleCutsPredecessor`);
* the check that an initialiser stays below the heap is done modulo 2^32 (`HeapCheckExact`,
  `WrappedCheckPasses`);
* a handle parsed before it is issued is bound for the empty name (`BoundToNamesByCalls`,
  `UnissuedHandleMisbound`);
* each load writes the initialisers of all names loaded before it again, over whatever is there
  (`ElementWrittenOnceExactly`, `SecondNameWritesAgain`);
* a global array declared without a dimension reserves no bytes, so that its initialiser can run into later
  variables (`DisjointExactly`, `MeetsLaterExactly`, `OpenArrayOverlaps`);
* a grid whose volume is a multiple of 2^32 is refused as empty (`RefusedExactly`, `LargeGridRefused`);
* a launch that sets too few arguments runs with those of an earlier launch of the same function
  (`IndependentExactly`, `EarlierArgumentsReused`). The comment on `set_arg` says arguments are placed by
  offset; they are bound by position, and the offset is only compared.

## Model

| member | source | states |
|---|---|---|
| Sections.BestIsLargest | libcuda/cuda_runtime_api.cc:4785-4804 | an identifier has a best architecture exactly when some PTX section of it is within the cap, and then it is the largest such one |
| Sections.PruningKeepsBest | libcuda/cuda_runtime_api.cc:4806-4829 | after pruning, the PTX sections an identifier keeps all have its largest eligible architecture, and it keeps some exactly when it had an eligible one |
| Sections.AllowedExactly | libcuda/cuda_runtime_api.cc:4771-4797 | the cap admits exactly the PTX sections of the identifier that are not above a forced architecture, if one is given, and that are below 20 under PTXPlus |
| Sections.SurvivorsAt | libcuda/cuda_runtime_api.cc:4806-4829 | pruning returns the list read at a strictly increasing list of positions, which are exactly those of the sections, ELF or PTX, whose architecture is the largest among the allowed PTX sections of their identifier, or 0 where there is none |
| Sections.KeptMatchesAt | libcuda/cuda_runtime_api.cc:4806-4829 | of an identifier it keeps, in order, exactly the PTX sections of that architecture |
| Sections.InitialisedExactly | libcuda/cuda_runtime_api.cc:4764-4903 | pruned and merged, the list is exactly the kept ELF sections in order, then for each identifier with an allowed PTX section, once each, the last such section of the largest architecture |
| Sections.MatchesAt | libcuda/cuda_runtime_api.cc:4836-4871 | the sections merged are all PTX sections of the identifier, in order |
| Sections.RestAt | libcuda/cuda_runtime_api.cc:4864-4871 | the sections passed over are, in order, the ELF ones and those of other identifiers |
| Sections.CStrStopsAtNul | libcuda/cuda_runtime_api.cc:4855-4862 | string functions see a file up to its first NUL |
| Sections.ChainStopsAt | libcuda/cuda_runtime_api.cc:4844-4862 | merging aborts at the first section, the last excepted, whose running file is not named, missing or empty |
| Sections.ChainAppends | libcuda/cuda_runtime_api.cc:4844-4862 | one more section takes what follows the first 50 bytes of the running text before it at the end of its file, created if need be; a shorter text changes no file |
| Sections.MergedMatches | libcuda/cuda_runtime_api.cc:4832-4874 | merging some identifiers leaves each of them with its last PTX section alone and every other identifier with all of its sections in order |
| Sections.MergeNext | libcuda/cuda_runtime_api.cc:4896-4900 | merging one more identifier in the list merged so far is merging it in the original list |
| Sections.RestOfAllIds | libcuda/cuda_runtime_api.cc:4864-4871 | once every identifier is merged, the ELF sections are left in front in their original order |
| Sections.PtxIdsHold | libcuda/cuda_runtime_api.cc:4881-4894 | the identifiers collected are, each once, exactly those that have a PTX section |
| Sections.PtxIdsInOrder | libcuda/cuda_runtime_api.cc:4881-4894 | of two identifiers collected, the earlier one has a PTX section before any of the later one |
| Sections.FindIsFirstMatch | libcuda/cuda_runtime_api.cc:4934-4954 | without dynamic parallelism the search returns the first PTX section of the identifier, or nothing exactly when there is none |
| Sections.FindElfIsFirst | libcuda/cuda_runtime_api.cc:4907-4917 | the search returns the ELF section of the identifier before which there is no other, or nothing exactly when there is none |
| Sections.FirstElfOfTwo | libcuda/cuda_runtime_api.cc:4920-4930 | looking in one list and, failing that, in another finds the first ELF section of the two lists together |
| Sections.FindPtxIsFirst | libcuda/cuda_runtime_api.cc:4934-4954 | the search returns the first PTX section that has the identifier, or under dynamic parallelism the first of all, or nothing exactly when there is none |
| Sections.FirstPtxOfTwo | libcuda/cuda_runtime_api.cc:4958-4968 | looking in one list and, failing that, in another finds the first such section of the two lists together |
| Sections.OnePerIdMatches | libcuda/cuda_runtime_api.cc:4877-4903 | the merged list holds exactly one PTX section per identifier, the last of the original ones |
| Sections.LookupFindsBest | libcuda/cuda_runtime_api.cc:4764-4980 | pruning, merging and looking up, composed: the section found has the identifier and its largest eligible architecture; nothing is found exactly when no section was eligible; there is never a second one |
| MergedFiles.MergeClosedForm | libcuda/cuda_runtime_api.cc:4844-4862 | the merge is the last text followed by the texts without header of the others, last to first, exactly when no text before the last that is shorter than a header comes after one longer than a header |
| MergedFiles.MergedLength | libcuda/cuda_runtime_api.cc:4855-4862 | the merge is at least the sum of the lengths less one header per step, with equality exactly when no running text is shorter than a header |
| MergedFiles.ShortMiddleCutsPredecessor | libcuda/cuda_runtime_api.cc:4855-4862 | any text shorter than a header between two others takes from the text before it as many bytes as it is short of a header |
| MergedFiles.ChainMerges | libcuda/cuda_runtime_api.cc:4832-4874 | chaining sections with files of their own succeeds, leaves the whole merge in the last one's file and changes no file outside these sections |
| MergedFiles.ChainAllMerges | libcuda/cuda_runtime_api.cc:4877-4903 | merging all identifiers leaves each identifier's own merge in its last file: the merges do not disturb each other |
| CudaRuntimeApi.CudaRuntimeApi.PruneSectionList | libcuda/cuda_runtime_api.cc:4764-4829 | the two loops return the surviving sections (SurvivorsAt says which and in what order), or abort exactly when none survives; the map read with its default 0 decides as the best architecture does |
| CudaRuntimeApi.CudaRuntimeApi.MergeMatchingSections | libcuda/cuda_runtime_api.cc:4832-4874 | the loop chains the files of the matching sections and returns all other sections in order followed by the last matching one |
| CudaRuntimeApi.CudaRuntimeApi.PtxIdentifiers | libcuda/cuda_runtime_api.cc:4881-4894 | collects the PTX identifiers by first appearance |
| CudaRuntimeApi.CudaRuntimeApi.MergeNextIdentifier | libcuda/cuda_runtime_api.cc:4896-4900 | merging one more identifier keeps the list and the files at what merging the identifiers so far means, or fails as merging all of them does |
| CudaRuntimeApi.CudaRuntimeApi.MergeIdentifiers | libcuda/cuda_runtime_api.cc:4896-4900 | merging identifier by identifier ends with everything else followed by the last PTX section of each |
| CudaRuntimeApi.CudaRuntimeApi.MergeSections | libcuda/cuda_runtime_api.cc:4877-4903 | reassigning the list identifier by identifier ends with the ELF sections followed by one PTX section per identifier |
| CudaRuntimeApi.MergeAdvances | libcuda/cuda_runtime_api.cc:4896-4900 | one pass over the identifiers merged so far keeps the list and the files at what merging those identifiers means |
| CudaRuntimeApi.CudaRuntimeApi.FindPTXSectionInList | libcuda/cuda_runtime_api.cc:4934-4954 | returns the first PTX section of the identifier; with dynamic parallelism on, the first PTX section of any |
| CudaRuntimeApi.CudaRuntimeApi.FindELFSectionInList | libcuda/cuda_runtime_api.cc:4907-4917 | the loop returns the first ELF section of the identifier, and nothing exactly when the list has none |
| CudaRuntimeApi.CudaRuntimeApi.FindPTXSection | libcuda/cuda_runtime_api.cc:4957-4967 | searches the program's sections, then the libraries', and aborts when both have none |
| CudaRuntimeApi.CudaRuntimeApi.FindELFSection | libcuda/cuda_runtime_api.cc:4920-4930 | returns the first ELF section of the identifier in the program's list followed by the libraries' list, and aborts exactly when neither has one |
| CudaRuntimeApi.CudaRuntimeApi.CuobjdumpInit | libcuda/cuda_runtime_api.cc:4970-4980 | prunes and then merges in place, unless the sections come from a file set in the environment |
| CudaRuntimeApi.CudaRuntimeApi.RegisterFatBinary | libcuda/cuda_runtime_api.cc:1426-1442 | issues the next handle, initialises the sections on the first one, names the handle and keeps the invariant of the cache |
| CudaRuntimeApi.CudaRuntimeApi.constructor | libcuda/gpgpu_context.h:95 | nothing is loaded, and there is no table yet |
| CudaRuntimeApi.CudaRuntimeApi.InitParser | src/cuda-sim/ptx_parser.cc:252-298 | the first parse creates the table of all files; every parse adds to that same object and returns it |
| CudaRuntimeApi.CudaRuntimeApi.ReadDeclarations | libcuda/cuda_runtime_api.cc:5044-5089 | the text parsed is the section's, the overriding or the converted one, with the aborts of each path |
| CudaRuntimeApi.CudaRuntimeApi.ParseVersionFiles | libcuda/cuda_runtime_api.cc:5005-5016 | the PTX files by version are all parsed into the one table, in order (FilesInTurn and VersionedTable say what that comes to); without any there is none |
| CudaRuntimeApi.CudaRuntimeApi.LoadSymbolTable | libcuda/cuda_runtime_api.cc:5005-5089 | yields the one table with what the texts of this path declare added to it, with the aborts of each path |
| CudaRuntimeApi.CudaRuntimeApi.InitialiseMemory | libcuda/cuda_runtime_api.cc:5090-5093 | succeeds exactly when every initialiser passes its check, and then has written the globals and after them the constants |
| CudaRuntimeApi.CudaRuntimeApi.AddBinary | libcuda/cuda_api_object.h:369-372 | binds the handle to the table and remembers the handle |
| CudaRuntimeApi.CudaRuntimeApi.FinishLoad | libcuda/cuda_runtime_api.cc:5018-5024 | binds the handle and caches the name to the one table, whose initialisers are all written, new and old; fails exactly when one of them fails its check |
| CudaRuntimeApi.CudaRuntimeApi.ParseCached | libcuda/cuda_runtime_api.cc:4999-5003 | a name loaded before only has its table bound to the handle |
| CudaRuntimeApi.CudaRuntimeApi.ParseNewName | libcuda/cuda_runtime_api.cc:5003-5097 | a name not seen before has its text added to the one table, which is then initialised in memory and cached |
| CudaRuntimeApi.CudaRuntimeApi.ParseBinary | libcuda/cuda_runtime_api.cc:4993-5097 | parses a handle as the value-level step does; keeps that every loaded name and every parsed handle have the same table object, and that memory is its initial contents with, for each load in order, the whole table of that time written |
| LoadedMemory.LoadKeepsMemory | libcuda/cuda_runtime_api.cc:5018-5024 | one more load adds the writes of the whole table to those before |
| LoadedMemory.LoadedInitialisersReadable | libcuda/cuda_runtime_api.cc:5610-5710 | in every reachable state: if the initialisers of the table as it is now are disjoint, each is readable in its place, whichever load brought it and whatever earlier loads wrote; and every byte on which no load so far had an initialiser is as at the start |
| LoadedMemory.FittingInitialisersReadable | libcuda/cuda_runtime_api.cc:5610-5710 | when initialisers fit the bytes reserved for them, all are readable, and as at the start are the bytes reserved for no variable and those reserved for a global or constant without initialiser |
| LoadedMemory.LoadWritesWholeTable | libcuda/cuda_runtime_api.cc:5625-5641 | a load writes every element of every initialiser in the table, including those earlier texts brought |
| LoadedMemory.WrittenOnceExactly | libcuda/cuda_runtime_api.cc:5018-5024 | an initialiser is written by the load that brings it and by each later one, so by one load exactly when no name is loaded after it |
| LoadedMemory.ByteWrittenPerLoad | libcuda/cuda_runtime_api.cc:5625-5641 | among all writes of all loads, the number that hit a byte is the number of loads whose table has an initialiser there |
| LoadedMemory.ElementWrittenPerLoad | libcuda/cuda_runtime_api.cc:5625-5641 | every byte of an element is written exactly once by each load at which the variable has that element, and by no other |
| LoadedMemory.ElementWrittenOnceExactly | libcuda/cuda_runtime_api.cc:5018-5024 | the bytes of an element there since some load are written once in all exactly when no name is loaded after that load |
| LoadedMemory.SecondNameWritesAgain | libcuda/cuda_runtime_api.cc:5018-5024 | a run with two names in which a variable's initialiser is written twice |
| SymbolTables.PadAligns | src/cuda-sim/ptx_parser.cc:716-727 | padding leads to the next multiple of the alignment and no further |
| SymbolTables.DeclareAllKeepsInv | src/cuda-sim/ptx_parser.cc:791-902 | however many texts are parsed, names stay unique and the bytes reserved for different variables never meet and lie below the next free address |
| SymbolTables.DeclareAllGrows | src/cuda-sim/ptx_ir.cc:438-457 | the table only grows: symbols are added at the end and keep name, place and type |
| SymbolTables.TableAsDeclared | src/cuda-sim/ptx_parser.cc:791-815 | the table holds exactly the declared names, each shaped by its first declaration and with the last initialiser any declaration of it gave |
| SymbolTables.LastIsGiven | src/cuda-sim/ptx_parser.cc:791-815 | the initialiser a name ends up with is the last non-empty one among its declarations |
| SymbolTables.DeclaredTwice | src/cuda-sim/ptx_parser.cc:791-815 | declaring everything a second time leaves the table as it is |
| SymbolTables.NewIsPlacedNext | src/cuda-sim/ptx_parser.cc:716-902 | a new variable goes at the end of its list, to the least free address that is aligned for it, and leaves the first address past it as the next free one; a constant array without dimension takes no place |
| SymbolTables.TablePlacesDisjoint | src/cuda-sim/ptx_parser.cc:859-902 | initialisers that fit the bytes reserved for them are placed disjointly |
| SymbolTables.DisjointExactly | src/cuda-sim/ptx_parser.cc:859-902 | the initialisers of a table are disjoint exactly when of every two with bytes at all one ends before the other begins |
| SymbolTables.MeetsLaterExactly | src/cuda-sim/ptx_parser.cc:808-811 | whatever is declared between two variables, their initialisers meet exactly when the first reaches past all that is reserved up to the second and the padding before it |
| SymbolTables.OpenArrayOverlaps | src/cuda-sim/ptx_parser.cc:808-811 | an array declared without a dimension and the variable after it get the same address |
| SymbolTables.SymbolTable.Lookup | src/cuda-sim/ptx_parser.cc:680-683 | finds whether a name is declared |
| SymbolTables.SymbolTable.AddInitializer | src/cuda-sim/ptx_ir.cc:177-179 | replaces the initialiser of the symbol of that name |
| SymbolTables.SymbolTable.AddIdentifier | src/cuda-sim/ptx_parser.cc:765-902 | adds a new variable at the next free place, or keeps the declared one and gives it the initialiser given again |
| SymbolTables.SymbolTable.AddAll | src/cuda-sim/ptx_parser.cc:627-634 | adds the declarations of a text in order |
| FatBinary.RunKeepsCache | libcuda/cuda_runtime_api.cc:4993-5095 | over every run: a name is loaded at most once, names and handles stay loaded and bound, and the one table only grows from load to load, keeping unique names and disjoint places |
| FatBinary.RegisterKeepsHandles | libcuda/cuda_runtime_api.cc:1426-1442 | a registration names a handle that had no name, and disturbs no earlier binding |
| FatBinary.RunKeepsHandles | libcuda/cuda_runtime_api.cc:4993-5003 | over every run that parses only issued handles, the names known are those of the handles issued, and each parsed handle's own name is loaded |
| FatBinary.ReparseChangesNothing | libcuda/cuda_runtime_api.cc:4995-4996 | once a handle is parsed, parsing it again changes nothing, whatever calls came in between |
| FatBinary.RunKeepsEarly | libcuda/cuda_runtime_api.cc:4993-5003 | over every run from the start with any calls: names belong to the issued handles and to those parsed early; a handle parsed before it was issued is bound for the empty name, and every other parsed handle's own name is loaded |
| FatBinary.BoundToNamesExactly | libcuda/cuda_runtime_api.cc:4993-5003 | over every run from the start, all parsed handles are bound to their own names' table exactly when the name of each handle parsed before it was issued is loaded |
| HandleNames.RunKeepsCalls | libcuda/cuda_runtime_api.cc:4993-5003 | over every run from the start, the calls alone say which name a handle has, which handles are parsed, and which names are loaded: those of which an issued handle has its first parse |
| HandleNames.FilenameIs | libcuda/cuda_runtime_api.cc:4997-4997 | the name of an issued handle is that of the registration that issued it |
| HandleNames.RunKeepsLastHandle | libcuda/cuda_runtime_api.cc:4995-5019 | over every run from the start, the last handle bound is that of the last call that parsed a handle for the first time |
| HandleNames.BoundToNamesByCalls | libcuda/cuda_runtime_api.cc:4993-5003 | in terms of the calls alone: all parsed handles are bound to their own names' table exactly when no handle was parsed before it was issued under a name that no first parse of an issued handle loads |
| FatBinary.UnissuedHandleMisbound | libcuda/cuda_runtime_api.cc:4995-5003 | a run that parses handle 1 first leaves it registered under a name that is not loaded |
| FatBinary.RunKeepsSections | libcuda/cuda_runtime_api.cc:1436-1442 | over every run, from the first registration on the sections and their files are the pruned and merged ones |
| FatBinary.RegisterSections | libcuda/cuda_runtime_api.cc:4970-4980 | only the first registration touches the sections, and only if they are not preloaded: it aborts where pruning keeps nothing, and otherwise leaves the pruned and merged list |
| VersionedFiles.RunKeepsPreloaded | libcuda/cuda_runtime_api.cc:4976-4980 | over every run, preloaded sections and files stay as they are |
| FatBinary.FirstParseLoadsMergedText | libcuda/cuda_runtime_api.cc:4764-5097 | in any run over sections with their own files, the first parse for a name aborts for want of a section exactly when none of that name is eligible, aborts while loading exactly when an initialiser of the grown table fails its check, and otherwise adds the merged text of the sections of the best eligible architecture to the table |
| FatBinary.TableIsMergedTexts | libcuda/cuda_runtime_api.cc:4764-5097 | in every state such a run reaches, the table is that of the merged texts of all names loaded, in load order, each parsed for the handle that first asked |
| VersionedFiles.FilesInTurn | libcuda/cuda_runtime_api.cc:5007-5017 | the files of two lists declare what the first list declares followed by what the second does; one file declares its own declarations, none nothing |
| VersionedFiles.VersionedTable | libcuda/cuda_runtime_api.cc:5006-5022 | in every state a versioned build reaches, the table is empty before the first load, and after it holds exactly the variables some file declares, each shaped by the first file that does and with the last initialiser given in file order |
| VersionedFiles.VersionedTableFixed | libcuda/cuda_runtime_api.cc:5006-5022 | however many names a versioned build loads, each parsing all files again, the table stays that of the first load |
| VersionedFiles.ParsedExactly | libcuda/cuda_runtime_api.cc:5052-5086 | with the first PTX section of the name over program and library: the override or else that section's file is read, and parsed up to its first NUL; under PTXPlus the conversion of that section's file with the two files of the first ELF section of its identifier is parsed instead |
| VersionedFiles.ParsedWithoutSection | libcuda/cuda_runtime_api.cc:5052-5069 | without a section the parse aborts; with preloaded sections only the override file is parsed, and only without PTXPlus |
| DeviceMemory.LittleEndianRoundTrip | libcuda/cuda_runtime_api.cc:5641-5642 | reading back the bytes stored gives the value cut to its width |
| DeviceMemory.GlobalMemory.Write | src/cuda-sim/memory.cc:118-121 | writing byte by byte puts the low bytes of the value, lowest first, at the address, and nothing else |
| DeviceMemory.LoadSymbol | libcuda/cuda_runtime_api.cc:5635-5646 | succeeds exactly when every element passes the 32-bit heap check and, for constants, the literal-width check; returns the bytes written |
| DeviceMemory.LoadStaticGlobals | libcuda/cuda_runtime_api.cc:5610-5653 | succeeds exactly when all globals' initialisers stay below the heap; the memory has received all of them in order and the result is their total size |
| DeviceMemory.LoadConstants | libcuda/cuda_runtime_api.cc:5658-5710 | the same for the symbols that are constants, with the literal checks and the abort for a constant without a place |
| DeviceMemory.ChecksExactly | libcuda/cuda_runtime_api.cc:5635-5694 | element by element: a global is admitted exactly when each element's end, modulo 2^32, is below the limit; a constant with an initialiser exactly when moreover it is placed and its literals suit its width in bits |
| DeviceMemory.ConstantsAt | libcuda/cuda_runtime_api.cc:5669-5672 | the symbols loaded as constants are, in order, exactly those marked so |
| DeviceMemory.InitialisersReadable | libcuda/cuda_runtime_api.cc:5610-5710 | with disjoint placements, loading globals and then constants leaves every element of every symbol readable little-endian at its address and every other byte unchanged |
| DeviceMemory.LastSymbolWins | libcuda/cuda_runtime_api.cc:5610-5710 | wherever placements meet, a byte holds what the last symbol placed on it gives it, constants coming after globals |
| DeviceMemory.HeapCheckExact | libcuda/cuda_runtime_api.cc:5635-5646 | for a symbol that passes the checks, every byte written lies below the heap exactly when its placement ends within the 32-bit address space |
| DeviceMemory.WrappedCheckPasses | libcuda/cuda_runtime_api.cc:5639-5640 | an element at the top of the address space passes the check |
| DeviceMemory.SizeIsCountTimesWidth | libcuda/cuda_runtime_api.cc:5643-5644 | the bytes counted for a symbol are its element count times its element width |
| KernelParams.FunctionInfo.constructor | src/cuda-sim/ptx_parser.cc:1008-1021 | declaring the parameters one by one records the size and offset of each, and binds none |
| KernelParams.FunctionInfo.AddConfigParam | src/cuda-sim/ptx_ir.h:4748-4758 | appends the size and the aligned offset after the last parameter |
| KernelParams.FunctionInfo.AddParamData | src/cuda-sim/cuda-sim.cc:2129-2163 | binds a value exactly when the parameter exists and was never bound with another size |
| KernelParams.FunctionInfo.BindArguments | libcuda/cuda_runtime_api.cc:5732-5740 | for any number of arguments, pushing to the front and binding from the highest index down cancel: the i-th argument set is bound to parameter i and all other parameters keep their earlier value |
| KernelParams.FunctionInfo.Finalize | src/cuda-sim/cuda-sim.cc:2288-2342 | succeeds exactly when every parameter has a value whose offset is its aligned address, and then yields the addresses and copied sizes |
| KernelParams.RoundingsAgree | src/cuda-sim/ptx_ir.h:4751-4755 | the parser's rounding and the launch's rounding give the same least multiple of the alignment |
| KernelParams.DriverArgsLaunch | src/cuda-sim/cuda-sim.cc:2322-2340 | arguments set with the recorded sizes and offsets always pass the launch check and land at the recorded offsets |
| KernelParams.SlotsDisjoint | src/cuda-sim/cuda-sim.cc:2322-2341 | parameters that pass the check never overlap |
| KernelParams.PackedExactly | src/cuda-sim/cuda-sim.cc:2288-2342 | the check passes with a list of slots exactly when that list is packed: each slot takes the lesser of argument and parameter size, at the least aligned address past the slot before it, which is the offset the argument was set with |
| LaunchStack.OpenerMatches | libcuda/cuda_runtime_api.cc:1702-1704 | the configuration at a height of the stack is the one opened by the matching call, which nothing since has closed |
| LaunchStack.OpenerUnique | libcuda/cuda_runtime_api.cc:1702-1704 | there is only one such call |
| LaunchStack.StackBelow | libcuda/cuda_runtime_api.cc:1813-1816 | a configure pushes one configuration, setting an argument changes only the top, a launch that does not abort pops exactly one |
| LaunchStack.RunKeepsInvariant | libcuda/cuda_runtime_api.cc:1839-1941 | over every run: each stack entry is the matching configuration with the arguments set at its height; kernels are numbered by the non-empty launches before them; each parameter holds the last argument set for it; the kernels pushed are those of the push points, each with its own configuration, number and parameters |
| LaunchCalls.StackByCalls | libcuda/cuda_runtime_api.cc:1702-1816 | over every run, the entry at an open height has the grid, block, shared memory and stream of the call that opened it, and the arguments set for it, newest in front |
| LaunchCalls.RunReports | libcuda/cuda_runtime_api.cc:1704-1940 | after every call of a run, the last error is an invalid configuration exactly when the call was a launch of a configuration refused by volume |
| LaunchStack.PushPointsExact | libcuda/cuda_runtime_api.cc:1862-1940 | the push points are, in order, exactly the launches whose matching configuration is not refused and whose number lies in the resume and checkpoint window; PushPointsByVolume says so in terms of volumes |
| LaunchCalls.LaunchByVolumes | libcuda/cuda_runtime_api.cc:1856-1940 | in every run, a launch only pops and reports an invalid configuration exactly when 2^32 divides the volume of the grid or of the block of its matching configure call; every other one takes the next number, succeeds, and hands its kernel over with that call's grid, block and stream exactly when the number is between the checkpoints |
| LaunchCalls.PushPointsByVolume | libcuda/cuda_runtime_api.cc:1861-1940 | the launches that hand a kernel over are exactly those whose matching grid and block have volumes 2^32 does not divide and whose number, one more than the launches of that kind before it, is between the checkpoints |
| LaunchCalls.ArgumentsOf | libcuda/cuda_runtime_api.cc:1801-1816 | the arguments of an open configuration are, in order, those set after it was opened and while none was open above it |
| LaunchCalls.LaunchBinds | libcuda/cuda_runtime_api.cc:5712-5753 | in every run, a launch that is not refused binds parameter i to the i-th of these arguments, keeps the binding of every parameter past them and of every other function, and hands over a kernel with these bindings packed |
| LaunchCalls.LaunchAbortsExactly | libcuda/cuda_runtime_api.cc:1854-1879 | after any run, a launch that is not refused aborts exactly when its function is not registered or has no implementation, or there are too many arguments, or one changes the size bound before, or the parameters then do not pack |
| LaunchWindow.RunFollowsWindow | libcuda/cuda_runtime_api.cc:1902-1931 | over every run shorter than 2^32 calls: the numbers pushed are the contiguous range from the kernel to resume from to the kernel to checkpoint, and the memory of every kernel up to the first is restored, in order |
| LaunchCalls.OnlyFirstSkips | libcuda/cuda_runtime_api.cc:1903-1910 | over every run shorter than 2^32 calls, only the first kernel pushed when resuming skips blocks, and it skips those before the one to resume at |
| CudaLaunch.LaunchApi.constructor | libcuda/cuda_api_object.h:811-812 | an API over unlaunched functions is a fresh start of a run |
| CudaLaunch.LaunchApi.ConfigureCall | libcuda/cuda_runtime_api.cc:1689-1706 | pushes a configuration without arguments, as the run's step does |
| CudaLaunch.LaunchApi.SetupArgument | libcuda/cuda_runtime_api.cc:1801-1824 | aborts on an empty stack, otherwise puts the argument in front of the top configuration's list |
| CudaLaunch.LaunchApi.BindTo | libcuda/cuda_runtime_api.cc:5732-5740 | binds a launch's arguments to one function's parameters, leaving every other function's bindings alone |
| CudaLaunch.LaunchApi.SetParameters | libcuda/cuda_runtime_api.cc:3293-3296 | sets pointer i with parameter i's recorded size and offset, for every parameter |
| CudaLaunch.LaunchApi.InitGrid | libcuda/cuda_runtime_api.cc:5712-5753 | numbers the kernel, binds the arguments and takes the parameters, with the aborts of each |
| CudaLaunch.LaunchApi.Launch | libcuda/cuda_runtime_api.cc:1839-1941 | is the launch step of the run on the objects, with the order of the checks; LaunchByVolumes, LaunchBinds and LaunchAbortsExactly say what that step does |
| CudaLaunch.LaunchApi.LaunchGrid | libcuda/cuda_runtime_api.cc:1877-1940 | the part of a launch after the kernel is found |
| CudaLaunch.LaunchApi.SkipCtas | libcuda/cuda_runtime_api.cc:1909-1909 | advances a kernel by the number of blocks already done |
| CudaLaunch.LaunchApi.ResumeAt | libcuda/cuda_runtime_api.cc:1902-1910 | exactly at the kernel to resume from, restores its memory and advances its blocks |
| CudaLaunch.LaunchApi.PushOrSkip | libcuda/cuda_runtime_api.cc:1902-1940 | restores up to the kernel to resume from, and pushes exactly the kernels in the window; always pops |
| CudaLaunch.LaunchApi.CuLaunchKernel | libcuda/cuda_runtime_api.cc:3267-3299 | is the run of one configure, one set-argument per parameter and one launch |
| DriverLaunch.RefusedExactly | libcuda/cuda_runtime_api.cc:1862-1868 | a grid or block is refused as empty exactly when 2^32 divides its volume; below 2^32 that means a zero dimension |
| DriverLaunch.LargeGridRefused | libcuda/cuda_runtime_api.cc:1862-1868 | 65536 by 65536 blocks are refused |
| DriverLaunch.OwnArguments | libcuda/cuda_runtime_api.cc:5732-5740 | from any state, a launch that goes through sets no more arguments than there are parameters, and leaves parameter i bound to an argument a exactly when a is its own argument i or, if it has none, what the parameter was bound to before |
| DriverLaunch.IndependentExactly | libcuda/cuda_runtime_api.cc:5732-5743 | the arguments a launch runs with are the same after every run from a fresh start after which it goes through, exactly when it sets all of its function's parameters |
| DriverLaunch.EarlierArgumentsReused | src/cuda-sim/cuda-sim.cc:2288-2300 | after any launch that goes through, a launch of the same function with only the first n of its arguments goes through too and runs with all of the first one's parameters |
| DriverLaunch.DriverLaunchBinds | libcuda/cuda_runtime_api.cc:3285-3297 | from any state, `cuLaunchKernel` goes through exactly when earlier bindings have the parameters' sizes; it then binds pointer i to parameter i with that parameter's own size and offset and leaves the stack as it was |
| DriverLaunch.DriverRunKeepsSizes | libcuda/cuda_runtime_api.cc:3267-3299 | from any state in which earlier bindings have their parameters' sizes, any number of `cuLaunchKernel` calls on registered kernels goes through and leaves the stack as it was |
| DriverLaunch.DriverRunsNeverAbort | libcuda/cuda_runtime_api.cc:3267-3299 | a program that launches registered kernels through `cuLaunchKernel` alone never aborts, and the stack is empty after each of its calls |
| LogStreams.CountPlots | aerialvision/organizedata.py:263-271 | the backward scan counts the last non-empty group |
| LogStreams.PadUnits | aerialvision/organizedata.py:281-284 | a NULL gives every unit the group did not reach a zero |
| LogStreams.NullOrganizedShader | aerialvision/organizedata.py:259-293 | succeeds exactly when every value fits a cell and no group is longer than the last non-empty one; the result is rectangular, row u holding 0 and then the u-th value of each group or 0 |
| StreamCells.ShaderTable | aerialvision/organizedata.py:259-293 | in terms of the stream: there is a row per value of the last run that has values, each value of the stream stands in the row of its place in its run and the column of its group, all other cells are zero; it succeeds exactly when no run is longer and every value is below 2^32 |
| StreamCells.TokenInGroup | aerialvision/organizedata.py:277-290 | value u after g NULLs is value u of group g |
| StreamCells.GroupHasToken | aerialvision/organizedata.py:277-290 | and every value of a group is such a token |
| LogStreams.TransposeConserves | aerialvision/organizedata.py:259-293 | the table sums to the stream |
| LogStreams.BinRow | aerialvision/organizedata.py:306-312 | the in-place sums and averages of one row are the binned row, or raise exactly when a bin leaves 32 bits |
| LogStreams.AverageCells | aerialvision/organizedata.py:310-311 | divides every bin in place by the bin width |
| LogStreams.BinRows | aerialvision/organizedata.py:304-312 | every row of the table is replaced by its binned row |
| LogStreams.NullOrganizedStackedBar | aerialvision/organizedata.py:298-314 | is the shader table, binned exactly when its rows exceed 512 samples |
| LogStreams.BinIsSlice | aerialvision/organizedata.py:302-309 | every bin index is below 512, and bin b collects exactly the slice [b*n, (b+1)*n) cut at the end of the row |
| StreamCells.BinnedExactly | aerialvision/organizedata.py:302-312 | the width is the least with which 512 bins exceed the row; each of the 512 results is its slice's sum divided by the width; a row is accepted exactly when every slice's sum is below 2^32 |
| LogStreams.BinningBounds | aerialvision/organizedata.py:310-311 | n times the sum of the averages is at most the row's sum and misses it by at most 512*(n-1) |
| DramLogs.NullOrganizedDram | aerialvision/organizedata.py:319-335 | succeeds exactly when every partition number is at most the current row count and every value fits; row p is then 0 followed by what was logged for p, in order |
| StreamCells.LoggedAt | aerialvision/organizedata.py:319-363 | the records of a log are, in order, the values with a whole header before them in their run, each with the first values of the run as header |
| StreamCells.FiledAt | aerialvision/organizedata.py:319-363 | what is filed under a header is, in log order, every value of the runs that open with it |
| StreamCells.NoGapsExactly | aerialvision/organizedata.py:328-334 | the partitions can be filed exactly when each is at most 1 or at most one above an earlier one |
| StreamCells.RowCountIs | aerialvision/organizedata.py:320-334 | there is one row, or one for every number up to the largest partition |
| DramLogs.DramConserves | aerialvision/organizedata.py:319-335 | the rows hold every logged value exactly once: they sum to the log |
| DramLogs.FilingConserves | aerialvision/organizedata.py:328-334 | filing records under distinct headers that cover them loses and repeats nothing |
| BankKeys.ParseInvertsDecimal | aerialvision/guiclasses.py:1239-1239 | reading a number back from its decimal text gives the number |
| BankKeys.DecimalInvertsParse | aerialvision/guiclasses.py:1239-1239 | writing the number a numeral without leading zero reads as gives the numeral back |
| BankKeys.DecimalIsNumeral | aerialvision/organizedata.py:357-357 | the text of a number is digits only, with no leading zero |
| BankKeys.KeyRoundTrip | aerialvision/organizedata.py:357-357 | splitting a "chip.bank" key and reading its parts gives back chip and bank, so distinct headers give distinct keys |
| ChipBanks.NullOrganizedDramV2 | aerialvision/organizedata.py:341-363 | the dictionary maps exactly the keys of the logged headers, each to 0 followed by the values logged under it, in order |
| ChipBanks.ChipImage | aerialvision/guiclasses.py:1226-1242 | the image's row c holds at each time the sum over the banks of chip c; it is drawn exactly when every chip number is below the number of chips and every series reaches the plotted length |
| ChipBanks.CellIsBankSum | aerialvision/guiclasses.py:1241-1242 | a cell sums, over all keys once each, the samples of those of its chip and nothing else |
| ChipBanks.DrawableIsGapless | aerialvision/guiclasses.py:1226-1239 | every chip number is below the number of chips exactly when the chips are numbered from zero without gaps |
| ChipBanks.CollectMajors | aerialvision/guiclasses.py:1226-1234 | collects the chips of the keys and the length of the last series |
| ChipBanks.AddSeries | aerialvision/guiclasses.py:1241-1242 | adds one bank's samples to the chip's row in place |
| ChipBanks.ImageConserves | aerialvision/guiclasses.py:1236-1242 | for series of one length, the image of an organized log totals everything logged |
| LineMaps.LocBeforeIsLast | aerialvision/lexyacctexteditor.py:185-190 | the line number in force is that of the last .loc strictly before the PTX line, or 0 |
| LineMaps.PtxToCudaMapping | aerialvision/lexyacctexteditor.py:171-194 | the scan lists under each CUDA line exactly its PTX lines, in order |
| LineMaps.ScanPartitions | aerialvision/lexyacctexteditor.py:177-192 | every PTX line is in exactly one list, once |
| LineMaps.InvertMapping | aerialvision/organizedata.py:190-203 | in whatever order the dictionary is visited, each PTX line up to the last measured one is sent to a CUDA line that lists it |
| LineMaps.DropPast | aerialvision/organizedata.py:197-203 | keeps exactly the entries not past the last measured line |
| LineMaps.InversionLossless | aerialvision/organizedata.py:190-203 | inverting a scan gives one map whatever the order, sending each line up to the last measured one to the CUDA line in force |
| Cflog.FillCycle | aerialvision/organizedata.py:395-398 | each cell of the cycle's column is the count beside the last entry of its program counter in the cycle, 0 if there is none; all other columns stay |
| Cflog.LastCountIs | aerialvision/organizedata.py:397-398 | writing counts in order leaves each counter with the one beside its last entry |
| Cflog.CFLOGOrganizePTX | aerialvision/organizedata.py:383-400 | succeeds exactly on well-formed logs; if entry n is the last of pc in a cycle, cell (pc, cycle) is thread count n of that cycle, and it is 0 if pc is not in the cycle |
| Cflog.AddRow | aerialvision/organizedata.py:427-428 | adds a PTX row to a CUDA row sample by sample |
| Cflog.CollectLine | aerialvision/organizedata.py:424-428 | in any visiting order, a CUDA line collects the column-wise sum of its PTX rows |
| Cflog.CollectLines | aerialvision/organizedata.py:415-428 | one such row per CUDA line in the map |
| Cflog.Bounds | aerialvision/organizedata.py:433-433 | finds the least and the greatest CUDA line |
| Cflog.CFLOGOrganizeCuda | aerialvision/organizedata.py:407-439 | succeeds exactly when map and table are not empty and the map stays inside the table; the result has one row per CUDA line from the least up to but not including the greatest |
| Cflog.ProjectRow | aerialvision/organizedata.py:432-437 | row i of the projection is the column-wise sum of the PTX rows mapped to line min + i, and all zeros if none is |
| Cflog.ProjectionConserves | aerialvision/organizedata.py:407-439 | the projection's total plus the rows mapped to the greatest line is the total over all mapped rows |
| Cflog.ProjectionComplete | aerialvision/organizedata.py:433-433 | the projection totals all mapped rows exactly when every sample of the rows mapped to the greatest line is zero |
| Cflog.OnlyLineDropped | aerialvision/organizedata.py:433-433 | a table whose rows are all mapped to one line is projected to nothing |
| CflogPipeline.CudaRowsFollowDirectives | aerialvision/organizedata.py:185-203 | scan, inversion and projection composed: a CUDA row is the column-wise sum of the PTX rows the .loc directives put on that line |
| CflogTotals.CflogVariable.AddInPlace | aerialvision/organizedata.py:229-235 | adds another table cell by cell in place, up to the first cell that raises |
| CflogTotals.OrganizeKernel | aerialvision/organizedata.py:216-220 | organizes one kernel's log in place and, when logs are converted to CUDA lines, projects it into a new variable |
| CflogTotals.AddToTotals | aerialvision/organizedata.py:222-237 | adds a kernel to the totals, skipping the CUDA addition when the PTX one raised or logs are not converted |
| CflogTotals.AddLog | aerialvision/organizedata.py:216-239 | one pass of the loop: the first kernel's variables become the totals, later ones are added in |
| CflogTotals.OrganizeCflogs | aerialvision/organizedata.py:206-240 | with or without conversion to CUDA lines, the totals are the first kernel's own variables, into which the later kernels are added; every later kernel keeps its own table; without conversion the CUDA total stays empty |
| CflogTotals.ProjectIsLinear | aerialvision/organizedata.py:407-439 | projecting a cell-wise sum is summing the projections |
| CflogTotals.GapKept | aerialvision/organizedata.py:229-235 | a kernel that can be added leaves the difference between the projection of the PTX total and the CUDA total as it is |
| CflogTotals.GapGrows | aerialvision/organizedata.py:222-237 | a kernel whose addition raises widens that difference by exactly the projection of what was added before the exception |
| CflogTotals.StopIsFirst | aerialvision/organizedata.py:229-231 | the addition stops at the first cell that does not fit: every cell before it does |
| CflogTotals.TotalsAgreeExactly | aerialvision/organizedata.py:206-240 | for every log, the accumulated CUDA table is the projection of the accumulated PTX table exactly when each later kernel fits cell by cell, or has only zeros, in rows mapped below the highest CUDA line, before its first cell that does not fit |
| CflogTotals.TotalsCommute | aerialvision/organizedata.py:206-240 | in particular, whenever no later table is larger than the first and no total leaves 32 bits, the two agree and the PTX table holds the cell totals |
| CflogTotals.EqualShapesCommute | aerialvision/organizedata.py:206-240 | in particular for kernels of one shape |
| CflogTotals.LongerKernelDiverges | aerialvision/organizedata.py:221-237 | a later kernel with more cycles than the first breaks it: the CUDA total and the projection of the PTX total are two different tables |
| KernelAxis.GraphManager.FindKernalLocs | aerialvision/guiclasses.py:1295-1305 | records in order exactly the samples not above the one before them, the first if it is not above -1, then the length of the axis |
| KernelAxis.GraphManager.XIsKernal | aerialvision/guiclasses.py:1286-1291 | decides whether a sample is a recorded start |
| KernelAxis.GraphManager.LiftKernel | aerialvision/guiclasses.py:1275-1278 | lifts one kernel's samples by the sample before it, raising exactly when they run past the series |
| KernelAxis.GraphManager.UpdateVarKernal | aerialvision/guiclasses.py:1270-1282 | the nested in-place loops add to each sample the last values of all kernels before it; they raise exactly when a series shorter than the axis has a restart to stitch |
| KernelAxis.CarryIsLastValues | aerialvision/guiclasses.py:1270-1282 | what is added to a sample is the sum of the values just before the kernel starts up to it |
| KernelAxis.StitchedAxisMonotone | aerialvision/guiclasses.py:1270-1282 | stitching a non-negative axis by itself never falls, keeps all differences inside a kernel and grows strictly there |
| KernelAxis.GraphManager.TakeDerivative | aerialvision/guiclasses.py:1422-1442 | the running sum of the result times the cycle step is y[i], plus the values just before each drop when drops are restarts; the step is x[1]-x[0] unless negative, when it is the first non-zero axis sample; short axes raise, and so does a zero step as soon as there is a sample |
| KernelAxis.DerivativeSumsBack | aerialvision/guiclasses.py:1437-1441 | for any step but zero, the running sum of the quotients times the step gives the series back, with or without restarts |
| KernelAxis.CycleStepExactly | aerialvision/guiclasses.py:1426-1435 | the step used is the difference of the first two samples, unless it is negative and the axis has samples, when it is the first non-zero one, or zero if there is none |
| KernelAxis.GraphManager.TakeDerivativeMult | aerialvision/guiclasses.py:1406-1414 | differences every row; raises an index error exactly when the axis, or with rows the x series, has fewer than two samples, and otherwise a division error exactly when some row has samples and the cycle step is zero |
| KernelAxis.DerivativeNonNegative | aerialvision/guiclasses.py:1422-1442 | no quotient of a non-negative series over a positive step is negative |
| KernelAxis.DifferencesSumBack | aerialvision/guiclasses.py:1437-1441 | the differences up to i sum to y[i] plus the values just before each drop |
| KernelAxis.SummedDifferencesAreStitched | aerialvision/guiclasses.py:1437-1441 | when the counter drops exactly at the kernel starts, the running sum of its differences is the stitched counter |
| KernelAxis.DifferenceUndoesRunningSum | aerialvision/guiclasses.py:1437-1441 | differencing undoes a running sum exactly when no later increment is negative save where the sum so far is zero |
| KernelAxis.DerivativeIgnoresStitching | aerialvision/guiclasses.py:1270-1442 | differencing the raw and the stitched counter agree exactly when drops and kernel starts coincide where anything is carried |
| KernelAxis.PlateauDisagrees | aerialvision/guiclasses.py:1301-1302 | a repeated cycle is a start but no drop, and there the two differ |
| KernelAxis.RangeOf | aerialvision/guiclasses.py:1480-1480 | the label loop visits exactly the multiples of the step below the length |
| KernelAxis.GraphManager.XTicks | aerialvision/guiclasses.py:1465-1482 | clips the tick setting of the current plot in place and labels the multiples of the step, raising exactly on empty data |
| KernelAxis.GraphManager.YTicks | aerialvision/guiclasses.py:1471-1488 | the same for the y axis, where an unset entry becomes 8 and a single tick is labelled too |
| KernelAxis.TickCount | aerialvision/guiclasses.py:1465-1488 | at least s and at most 2s-1 labels for s between 1 and the length; the step is at least 1 |
| KernelAxis.ClippedIsNearest | aerialvision/guiclasses.py:1465-1476 | the number of ticks is the one from 1 to the length that is nearest to the one asked for |
| KernelAxis.TickOrder | aerialvision/guiclasses.py:1480-1488 | labelled positions are distinct samples in order |

## Left out

- The command lines, environment variables, temporary files and `ldd`/cuobjdump output parsing around the
  fat-binary pipeline: sections and file contents are inputs, environment switches are fields of a record.
- The grammar of PTX, the PTX-info loader and the PTXPlus converter: which variables a text or file declares is
  an uninterpreted function. The file of a handle's own name that the parser opens before it parses the text in
  memory can be part of that function.
- Symbols other than file-scope globals and constants: functions, which share the names, variables declared
  inside functions, `.constptr`, textures, shared and local memory; wrap-around of the next free address.
- LoadedMemory.LoadedInitialisersReadable: for tables placed below 2^32, because past it addresses wrap, and for
  memory that only loads write to: stores by kernels are not modelled. Where initialisers overlap
  (DisjointExactly), the last one written wins.
- LoadedMemory.ElementWrittenOnceExactly: for initialisers that fit the bytes reserved for them;
  ByteWrittenPerLoad needs only disjoint ones.
- Comparing identifiers with `strcmp` and with `==` differs only for names with NUL, not modelled.
- Deleting sections and the memory of merged objects; `cuLinkAddFile` writing to the name cache directly;
  the legacy registration without cuobjdump; wrap-around of the 32-bit handle counter.
- FatBinary.FirstParseLoadsMergedText: for the plain pipeline only (no preloaded sections, no PTX by version,
  no PTXPlus, no dynamic parallelism, no override file), because the other paths parse other texts; the
  runs of all paths are covered by RunKeepsCache and RunKeepsHandles.
- FatBinary.RunKeepsHandles: for runs that parse issued handles only; BoundToNamesExactly covers every run.
- FatBinary.TableIsMergedTexts: for the plain pipeline and issued handles only, because a parse before the
  first registration sees the sections before they are pruned and merged.
- The blocks and watchpoints of `memory_space`: memory is a map from address to byte, a byte never written
  reading as zero.
- DeviceMemory.InitialisersReadable: for symbols that end below 2^32, because past it the addresses wrap and
  symbols placed apart can meet; HeapCheckExact says when the check excludes it.
- OpenCL's scratchpad and local-memory parameters (an argument without a declared parameter aborts here),
  the types of parameters, the word-wise copy of the argument bytes (a slot records where they come from,
  where they go and how many), and parameter blocks of 4 GiB and more. Parameters are taken in declaration
  order; the parser can also number them by a suffix of their name.
- Textures, launch latencies, PDOM analysis, the functional-simulation switch, and the contents of the
  checkpoint files: restoring is logged by kernel number, resuming at a block is a count of blocks.
- Stream scheduling: the stream manager is an append-only log of kernels; it ignores operations once a
  cycle, instruction or CTA limit is hit.
- LaunchWindow.RunFollowsWindow: for runs of fewer than 2^32 calls, because the kernel counter wraps around;
  RunKeepsInvariant holds without this bound.
- `cudaLaunchKernel`: the same sequence as `cuLaunchKernel` with the arguments of the runtime call.
- KernelParams.FunctionInfo.constructor: for parameter sizes and alignments the parser accepts; it asserts
  them.
- AerialVision's windows, plots, colours, labels and file dialogs; scalar and sparse variables; derivative
  counts above one, which repeat the same method.
- Rounding: series are exact rationals instead of 32-bit floats, and true division followed by truncation is
  integer division. Streams of floats ('f' arrays) follow the same loops without the 32-bit limit and are
  not modelled.
- Negative tokens and partition numbers: log values are natural numbers (a negative Python index would
  count from the end).
- The names under which organized variables are stored, and clashes between them.
- The text of PTX and stat files: a PTX file is the list of the CUDA lines its .loc directives name, and the
  largest line of the stat file is a parameter.
