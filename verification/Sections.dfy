/** The sections cuobjdump extracts from a fat binary: which ones survive pruning, and what merging the
    PTX sections of an identifier makes of their files (libcuda/cuda_runtime_api.cc). */
module Sections {
  import opened Results
  import opened Sequences

  datatype Section =
    | PTX(arch: nat, id: string, file: string)
    | ELF(arch: nat, id: string, elfFile: string, sassFile: string)

  /** File contents by name. */
  type Files = map<string, string>

  datatype SectionError = NothingLeft | CannotReadFile | CannotOpenFile | SectionNotFound

  /* Pruning */

  /** The cap for PTX sections, 0 meaning none; PTXPlus allows nothing from 20 on. */
  function EffectiveCap(forcedMax: nat, ptxplus: bool): nat {
    if ptxplus && (forcedMax == 0 || forcedMax >= 20) then 19 else forcedMax
  }

  predicate Eligible(s: Section, id: string, cap: nat) {
    s.PTX? && s.id == id && (s.arch <= cap || cap == 0)
  }

  /** The largest eligible PTX architecture of an identifier. */
  function Best(l: seq<Section>, id: string, cap: nat): Option<nat> {
    if l == [] then None
    else
      var s, best := l[|l| - 1], Best(l[..|l| - 1], id, cap);
      if Eligible(s, id, cap) && (best.None? || best.value < s.arch) then Some(s.arch) else best
  }

  function BestOrZero(l: seq<Section>, id: string, cap: nat): nat {
    match Best(l, id, cap) case Some(a) => a case None => 0
  }

  lemma {:induction false} BestIsLargest(l: seq<Section>, id: string, cap: nat)
    ensures Best(l, id, cap).Some? <==> exists i :: 0 <= i < |l| && Eligible(l[i], id, cap)
    ensures Best(l, id, cap).Some? ==>
      && (exists i :: 0 <= i < |l| && Eligible(l[i], id, cap) && l[i].arch == Best(l, id, cap).value)
      && (forall i :: 0 <= i < |l| && Eligible(l[i], id, cap) ==> l[i].arch <= Best(l, id, cap).value)
  {
    if l != [] {
      var front := l[..|l| - 1];
      BestIsLargest(front, id, cap);
      if Best(front, id, cap).Some? {
        var i :| 0 <= i < |front| && Eligible(front[i], id, cap) && front[i].arch == Best(front, id, cap).value;
        assert l[i] == front[i];
      }
    }
  }

  /** The sections of `l` whose architecture is the best one `all` offers for their identifier. */
  function Survivors(l: seq<Section>, all: seq<Section>, cap: nat): seq<Section> {
    if l == [] then []
    else
      var s := l[|l| - 1];
      if s.arch == BestOrZero(all, s.id, cap) then Survivors(l[..|l| - 1], all, cap) + [s]
      else Survivors(l[..|l| - 1], all, cap)
  }

  /* Matching sections */

  predicate IsMatch(s: Section, id: string) {
    s.PTX? && s.id == id
  }

  /** The PTX sections of an identifier, in order. */
  function Matches(l: seq<Section>, id: string): (ms: seq<Section>)
    ensures forall i :: 0 <= i < |ms| ==> IsMatch(ms[i], id)
  {
    if l == [] then []
    else if IsMatch(l[|l| - 1], id) then Matches(l[..|l| - 1], id) + [l[|l| - 1]]
    else Matches(l[..|l| - 1], id)
  }

  /** The last PTX section of an identifier. */
  function LastMatch(l: seq<Section>, id: string): (s: Section)
    requires Matches(l, id) != []
    ensures IsMatch(s, id)
  {
    Matches(l, id)[|Matches(l, id)| - 1]
  }

  /** Everything but the PTX sections of the given identifiers, in order. */
  function Rest(l: seq<Section>, ids: seq<string>): seq<Section> {
    if l == [] then []
    else
      var s := l[|l| - 1];
      if s.PTX? && s.id in ids then Rest(l[..|l| - 1], ids) else Rest(l[..|l| - 1], ids) + [s]
  }

  function Elfs(l: seq<Section>): seq<Section> {
    if l == [] then []
    else if l[|l| - 1].ELF? then Elfs(l[..|l| - 1]) + [l[|l| - 1]]
    else Elfs(l[..|l| - 1])
  }

  /** Every one of the identifiers has a PTX section. */
  predicate Present(l: seq<Section>, ids: seq<string>) {
    forall i :: 0 <= i < |ids| ==> Matches(l, ids[i]) != []
  }

  /** The identifiers of the PTX sections, by first appearance. */
  function PtxIds(l: seq<Section>): (ids: seq<string>)
    ensures Present(l, ids)
  {
    if l == [] then []
    else
      var s, ids := l[|l| - 1], PtxIds(l[..|l| - 1]);
      if s.PTX? && s.id !in ids then ids + [s.id] else ids
  }

  lemma {:induction false} PtxIdsHold(l: seq<Section>)
    ensures forall id :: id in PtxIds(l) <==> Matches(l, id) != []
    ensures Distinct(PtxIds(l))
  {
    if l != [] {
      PtxIdsHold(l[..|l| - 1]);
    }
  }

  lemma {:induction false} MatchesOfConcat(a: seq<Section>, b: seq<Section>, id: string)
    ensures Matches(a + b, id) == Matches(a, id) + Matches(b, id)
  {
    if b == [] {
      assert a + b == a;
    } else {
      MatchesOfConcat(a, b[..|b| - 1], id);
      assert (a + b)[..|a + b| - 1] == a + b[..|b| - 1];
    }
  }

  lemma {:induction false} RestOfConcat(a: seq<Section>, b: seq<Section>, ids: seq<string>)
    ensures Rest(a + b, ids) == Rest(a, ids) + Rest(b, ids)
  {
    if b == [] {
      assert a + b == a;
    } else {
      RestOfConcat(a, b[..|b| - 1], ids);
      assert (a + b)[..|a + b| - 1] == a + b[..|b| - 1];
    }
  }

  /* Files */

  /** What C string functions see of a file: the bytes before the first NUL. */
  function CStr(s: string): (c: string)
    ensures |c| <= |s|
  {
    if s == "" || s[0] == '\0' then "" else [s[0]] + CStr(s[1..])
  }

  lemma {:induction false} CStrWhole(s: string)
    requires '\0' !in s
    ensures CStr(s) == s
  {
    if s != "" {
      CStrWhole(s[1..]);
    }
  }

  const HEADER: nat := 50

  /** The program text of a PTX file: all but its version, target and address-size header. */
  function Tail(text: string): string {
    if |text| >= HEADER then text[HEADER..] else ""
  }

  /** `readfile` asserts that the file is named, exists and is not empty. */
  function ReadFile(files: Files, name: string): Result<string, SectionError> {
    if name == "" || name !in files || files[name] == "" then Failure(CannotReadFile) else Success(files[name])
  }

  /** Opening for append creates a missing file. */
  function AppendFile(files: Files, name: string, text: string): Result<Files, SectionError> {
    if name == "" then Failure(CannotOpenFile)
    else Success(files[name := (if name in files then files[name] else "") + text])
  }

  /** Appends the program text of file `from` to file `to`. */
  function AppendTail(files: Files, from: string, to: string): Result<Files, SectionError> {
    match ReadFile(files, from)
    case Failure(e) => Failure(e)
    case Success(text) =>
      if |CStr(text)| >= HEADER then AppendFile(files, to, CStr(text)[HEADER..]) else Success(files)
  }

  /** Each section's text is appended to the next one's file. */
  function Chain(files: Files, ms: seq<Section>): Result<Files, SectionError>
    requires forall i :: 0 <= i < |ms| ==> ms[i].PTX?
  {
    if |ms| <= 1 then Success(files)
    else
      match Chain(files, ms[..|ms| - 1])
      case Failure(e) => Failure(e)
      case Success(f) => AppendTail(f, ms[|ms| - 2].file, ms[|ms| - 1].file)
  }

  /** The last section of each identifier: the one that ends up holding the merged text. */
  function Lasts(l: seq<Section>, ids: seq<string>): (lasts: seq<Section>)
    requires Present(l, ids)
    ensures |lasts| == |ids|
  {
    seq(|ids|, i requires 0 <= i < |ids| => LastMatch(l, ids[i]))
  }

  /** Merges one identifier after the other. */
  function ChainAll(files: Files, l: seq<Section>, ids: seq<string>): Result<Files, SectionError> {
    if ids == [] then Success(files)
    else
      match ChainAll(files, l, ids[..|ids| - 1])
      case Failure(e) => Failure(e)
      case Success(f) => Chain(f, Matches(l, ids[|ids| - 1]))
  }

  /* Finding */

  /** The first PTX section of an identifier; with dynamic parallelism on, simply the first PTX section. */
  function FindPtx(l: seq<Section>, id: string, cdp: bool): Option<Section> {
    if l == [] then None
    else if l[0].PTX? && (l[0].id == id || cdp) then Some(l[0])
    else FindPtx(l[1..], id, cdp)
  }

  function FindElf(l: seq<Section>, id: string): Option<Section> {
    if l == [] then None
    else if l[0].ELF? && l[0].id == id then Some(l[0])
    else FindElf(l[1..], id)
  }

  predicate IsElf(s: Section, id: string) {
    s.ELF? && s.id == id
  }

  /** The first ELF section of an identifier, or nothing exactly when there is none. */
  ghost predicate IsFirstElf(l: seq<Section>, id: string, found: Option<Section>) {
    match found
    case None => forall i :: 0 <= i < |l| ==> !IsElf(l[i], id)
    case Some(s) => exists i :: 0 <= i < |l| && l[i] == s && IsElf(l[i], id) && NoElfBefore(l, id, i)
  }

  ghost predicate NoElfBefore(l: seq<Section>, id: string, i: nat)
    requires i < |l|
  {
    forall k :: 0 <= k < i ==> !IsElf(l[k], id)
  }

  /** Looking in `a` and, failing that, in `b` finds the first ELF section of the two lists together. */
  lemma {:induction false} FirstElfOfTwo(
    a: seq<Section>, b: seq<Section>, id: string, inA: Option<Section>, inB: Option<Section>)
    requires IsFirstElf(a, id, inA) && IsFirstElf(b, id, inB)
    ensures IsFirstElf(a + b, id, if inA.Some? then inA else inB)
  {
    if inA.Some? {
      var i :| 0 <= i < |a| && a[i] == inA.value && IsElf(a[i], id) && NoElfBefore(a, id, i);
      assert (a + b)[i] == a[i] && NoElfBefore(a + b, id, i);
    } else if inB.Some? {
      var i :| 0 <= i < |b| && b[i] == inB.value && IsElf(b[i], id) && NoElfBefore(b, id, i);
      assert (a + b)[|a| + i] == b[i] && NoElfBefore(a + b, id, |a| + i);
    }
  }

  lemma {:induction false} FindElfIsFirst(l: seq<Section>, id: string)
    ensures IsFirstElf(l, id, FindElf(l, id))
  {
    if l != [] {
      FindElfIsFirst(l[1..], id);
      var inHead := if IsElf(l[0], id) then Some(l[0]) else None;
      assert IsElf(l[0], id) ==> NoElfBefore([l[0]], id, 0);
      assert IsFirstElf([l[0]], id, inHead);
      FirstElfOfTwo([l[0]], l[1..], id, inHead, FindElf(l[1..], id));
      assert [l[0]] + l[1..] == l;
    }
  }

  lemma {:induction false} FindIsFirstMatch(l: seq<Section>, id: string)
    ensures FindPtx(l, id, false) == if Matches(l, id) == [] then None else Some(Matches(l, id)[0])
  {
    if l != [] {
      FindIsFirstMatch(l[1..], id);
      MatchesOfConcat([l[0]], l[1..], id);
      assert [l[0]] + l[1..] == l;
      assert Matches([l[0]], id) == if IsMatch(l[0], id) then [l[0]] else [] by {
        assert [l[0]][..0] == [];
      }
    }
  }

  /* What pruning and merging leave */

  lemma {:induction false} SurvivingMatches(l: seq<Section>, all: seq<Section>, cap: nat, id: string)
    ensures forall i :: 0 <= i < |Matches(Survivors(l, all, cap), id)| ==>
      Matches(Survivors(l, all, cap), id)[i].arch == BestOrZero(all, id, cap)
    ensures Matches(Survivors(l, all, cap), id) != [] <==>
      exists i :: 0 <= i < |l| && IsMatch(l[i], id) && l[i].arch == BestOrZero(all, id, cap)
  {
    if l != [] {
      var front, s := l[..|l| - 1], l[|l| - 1];
      SurvivingMatches(front, all, cap, id);
      if s.arch == BestOrZero(all, s.id, cap) {
        var kept := Survivors(front, all, cap);
        assert (kept + [s])[..|kept|] == kept;
      }
      if i :| 0 <= i < |l| && IsMatch(l[i], id) && l[i].arch == BestOrZero(all, id, cap) {
        assert i < |front| ==> front[i] == l[i];
      }
    }
  }

  /** An identifier keeps PTX sections exactly when it has an eligible one, and those it keeps all have
      the largest eligible architecture. */
  lemma {:induction false} PruningKeepsBest(l: seq<Section>, cap: nat, id: string)
    ensures var kept := Matches(Survivors(l, l, cap), id);
      && (kept != [] <==> Best(l, id, cap).Some?)
      && forall i :: 0 <= i < |kept| ==> Best(l, id, cap) == Some(kept[i].arch)
  {
    SurvivingMatches(l, l, cap, id);
    BestIsLargest(l, id, cap);
    if Best(l, id, cap).None? {
      if i :| 0 <= i < |l| && IsMatch(l[i], id) && l[i].arch == 0 {
        assert Eligible(l[i], id, cap);
      }
    }
  }

  /** The list after merging the first identifiers. */
  function Merged(l: seq<Section>, ids: seq<string>): seq<Section>
    requires Present(l, ids)
  {
    Rest(l, ids) + Lasts(l, ids)
  }

  lemma {:induction false} RestMatches(l: seq<Section>, ids: seq<string>, id: string)
    ensures Matches(Rest(l, ids), id) == if id in ids then [] else Matches(l, id)
  {
    if l != [] {
      var front, s := l[..|l| - 1], l[|l| - 1];
      RestMatches(front, ids, id);
      assert (Rest(front, ids) + [s])[..|Rest(front, ids)|] == Rest(front, ids);
    }
  }

  lemma {:induction false} NoMatches(l: seq<Section>, id: string)
    requires forall i :: 0 <= i < |l| ==> !IsMatch(l[i], id)
    ensures Matches(l, id) == []
  {
    if l != [] {
      NoMatches(l[..|l| - 1], id);
    }
  }

  /** Merging leaves one PTX section per identifier: the last of the original ones. */
  lemma {:induction false} MergedMatches(l: seq<Section>, ids: seq<string>, id: string)
    requires Present(l, ids)
    requires Distinct(ids)
    ensures Matches(Merged(l, ids), id) ==
      if id in ids then [LastMatch(l, id)] else Matches(l, id)
  {
    RestMatches(l, ids, id);
    MatchesOfConcat(Rest(l, ids), Lasts(l, ids), id);
    LastsMatches(l, ids, id);
  }

  lemma {:induction false} LastsMatches(l: seq<Section>, ids: seq<string>, id: string)
    requires Present(l, ids)
    requires Distinct(ids)
    ensures Matches(Lasts(l, ids), id) == if id in ids then [LastMatch(l, id)] else []
  {
    if ids != [] {
      var front, last := ids[..|ids| - 1], ids[|ids| - 1];
      LastsMatches(l, front, id);
      LastsOf(l, front, last);
      MatchesSnoc(Lasts(l, front), LastMatch(l, last), id);
      assert ids == front + [last];
    }
  }

  lemma LastsOf(l: seq<Section>, ids: seq<string>, id: string)
    requires Present(l, ids) && Matches(l, id) != []
    ensures Present(l, ids + [id])
    ensures Lasts(l, ids + [id]) == Lasts(l, ids) + [LastMatch(l, id)]
  {
  }

  lemma {:induction false} MatchesSnoc(l: seq<Section>, s: Section, id: string)
    ensures Matches(l + [s], id) == if IsMatch(s, id) then Matches(l, id) + [s] else Matches(l, id)
  {
    assert (l + [s])[..|l|] == l;
  }

  /** What `mergeMatchingSections` does to the list merged so far. */
  lemma {:induction false} MergeNext(l: seq<Section>, ids: seq<string>, id: string)
    requires Present(l, ids)
    requires id !in ids && Matches(l, id) != []
    requires Distinct(ids)
    ensures Matches(Merged(l, ids), id) == Matches(l, id)
    ensures Rest(Merged(l, ids), [id]) + [LastMatch(l, id)] == Merged(l, ids + [id])
  {
    MergedMatches(l, ids, id);
    RestOfConcat(Rest(l, ids), Lasts(l, ids), [id]);
    RestTwice(l, ids, id);
    LastsUntouched(l, ids, id);
    LastsSnoc(l, ids, id);
  }

  lemma LastsSnoc(l: seq<Section>, ids: seq<string>, id: string)
    requires Present(l, ids) && Matches(l, id) != []
    ensures Present(l, ids + [id])
    ensures var last := LastMatch(l, id);
      Rest(l, ids + [id]) + Lasts(l, ids) + [last] == Merged(l, ids + [id])
  {
    LastsOf(l, ids, id);
  }

  lemma {:induction false} RestTwice(l: seq<Section>, ids: seq<string>, id: string)
    ensures Rest(Rest(l, ids), [id]) == Rest(l, ids + [id])
  {
    if l != [] {
      var front, s := l[..|l| - 1], l[|l| - 1];
      RestTwice(front, ids, id);
      assert (Rest(front, ids) + [s])[..|Rest(front, ids)|] == Rest(front, ids);
    }
  }

  lemma {:induction false} LastsUntouched(l: seq<Section>, ids: seq<string>, id: string)
    requires Present(l, ids)
    requires id !in ids
    ensures Rest(Lasts(l, ids), [id]) == Lasts(l, ids)
  {
    if ids != [] {
      var front, last := ids[..|ids| - 1], ids[|ids| - 1];
      LastsUntouched(l, front, id);
      var lasts := Lasts(l, ids);
      assert lasts[..|lasts| - 1] == Lasts(l, front);
      assert IsMatch(lasts[|lasts| - 1], last);
    }
  }

  /** Once every identifier is merged only the ELF sections are left in front. */
  lemma {:induction false} RestOfAllIds(l: seq<Section>, ids: seq<string>)
    requires forall i :: 0 <= i < |l| && l[i].PTX? ==> l[i].id in ids
    ensures Rest(l, ids) == Elfs(l)
  {
    if l != [] {
      RestOfAllIds(l[..|l| - 1], ids);
    }
  }

  lemma {:induction false} PtxIdsCover(l: seq<Section>, i: nat)
    requires i < |l| && l[i].PTX?
    ensures l[i].id in PtxIds(l)
  {
    if i < |l| - 1 {
      PtxIdsCover(l[..|l| - 1], i);
    }
  }

  /** A PTX section of `a` comes before any of `b`. */
  ghost predicate AppearsBefore(l: seq<Section>, a: string, b: string) {
    exists k :: 0 <= k < |l| && IsMatch(l[k], a) && NoneUpTo(l, b, k)
  }

  ghost predicate NoneUpTo(l: seq<Section>, id: string, k: nat)
    requires k < |l|
  {
    forall m :: 0 <= m <= k ==> !IsMatch(l[m], id)
  }

  lemma {:induction false} PtxIdAppears(l: seq<Section>, id: string)
    requires id in PtxIds(l)
    ensures exists k :: 0 <= k < |l| && IsMatch(l[k], id)
  {
    var front, s := l[..|l| - 1], l[|l| - 1];
    if id in PtxIds(front) {
      PtxIdAppears(front, id);
      var k :| 0 <= k < |front| && IsMatch(front[k], id);
      assert IsMatch(l[k], id);
    } else {
      assert IsMatch(l[|l| - 1], id);
    }
  }

  /** The identifiers are in the order of their first PTX sections. */
  lemma {:induction false} PtxIdsInOrder(l: seq<Section>, i: nat, j: nat)
    requires i < j < |PtxIds(l)|
    ensures AppearsBefore(l, PtxIds(l)[i], PtxIds(l)[j])
  {
    var front, a, b := l[..|l| - 1], PtxIds(l)[i], PtxIds(l)[j];
    if j < |PtxIds(front)| {
      PtxIdsInOrder(front, i, j);
      var k :| 0 <= k < |front| && IsMatch(front[k], a) && NoneUpTo(front, b, k);
      assert IsMatch(l[k], a) && NoneUpTo(l, b, k);
    } else {
      PtxIdAppears(front, a);
      var k :| 0 <= k < |front| && IsMatch(front[k], a);
      forall m | 0 <= m <= k ensures !IsMatch(l[m], b) {
        if IsMatch(front[m], b) {
          PtxIdsCover(front, m);
        }
      }
      assert IsMatch(l[k], a) && NoneUpTo(l, b, k);
    }
  }

  /** The section list `cuobjdumpInit` leaves: surviving ELF sections, then one PTX section per
      identifier. */
  function Initialised(l: seq<Section>, cap: nat): seq<Section> {
    OnePerId(Survivors(l, l, cap))
  }

  /** The ELF sections, then the last PTX section of each identifier. */
  function OnePerId(l: seq<Section>): seq<Section> {
    Elfs(l) + Lasts(l, PtxIds(l))
  }

  lemma {:induction false} OnePerIdMatches(l: seq<Section>, id: string)
    ensures Matches(OnePerId(l), id) ==
      if Matches(l, id) == [] then [] else [LastMatch(l, id)]
  {
    PtxIdsHold(l);
    forall i | 0 <= i < |l| && l[i].PTX? ensures l[i].id in PtxIds(l) {
      PtxIdsCover(l, i);
    }
    RestOfAllIds(l, PtxIds(l));
    MergedMatches(l, PtxIds(l), id);
  }

  lemma OnePerIdFinds(l: seq<Section>, id: string)
    ensures FindPtx(OnePerId(l), id, false) ==
      if Matches(l, id) == [] then None else Some(LastMatch(l, id))
  {
    OnePerIdMatches(l, id);
    FindIsFirstMatch(OnePerId(l), id);
  }

  /** The PTX section found for an identifier in the initialised list, if any. */
  ghost predicate FoundIs(l: seq<Section>, cap: nat, id: string, found: Option<Section>) {
    match Best(l, id, cap)
    case None => found == None
    case Some(arch) => found.Some? && IsMatch(found.value, id) && found.value.arch == arch
  }

  /** Looking up an identifier after pruning and merging finds its one PTX section, of the largest
      eligible architecture; nothing is found exactly when there was no eligible section. */
  lemma {:induction false} LookupFindsBest(l: seq<Section>, cap: nat, id: string)
    ensures FoundIs(l, cap, id, FindPtx(Initialised(l, cap), id, false))
    ensures |Matches(Initialised(l, cap), id)| == if Best(l, id, cap).Some? then 1 else 0
  {
    PruningKeepsBest(l, cap, id);
    OnePerIdMatches(Survivors(l, l, cap), id);
    OnePerIdFinds(Survivors(l, l, cap), id);
  }

  /* What pruning keeps, position by position */

  /** A PTX section of the identifier that the options allow: not above the forced architecture, if one is
      given, and below 20 for PTXPlus. */
  predicate Allowed(s: Section, id: string, forcedMax: nat, ptxplus: bool) {
    IsMatch(s, id) && (forcedMax != 0 ==> s.arch <= forcedMax) && (ptxplus ==> s.arch < 20)
  }

  /** The architecture is the largest allowed one for the identifier, or 0 where none is allowed. */
  ghost predicate IsBest(l: seq<Section>, id: string, arch: nat, forcedMax: nat, ptxplus: bool) {
    if exists i :: 0 <= i < |l| && Allowed(l[i], id, forcedMax, ptxplus) then
      && (exists i :: 0 <= i < |l| && Allowed(l[i], id, forcedMax, ptxplus) && l[i].arch == arch)
      && (forall i :: 0 <= i < |l| && Allowed(l[i], id, forcedMax, ptxplus) ==> l[i].arch <= arch)
    else arch == 0
  }

  ghost predicate IsKept(l: seq<Section>, s: Section, forcedMax: nat, ptxplus: bool) {
    IsBest(l, s.id, s.arch, forcedMax, ptxplus)
  }

  lemma {:induction false} AllowedExactly(s: Section, id: string, forcedMax: nat, ptxplus: bool)
    ensures Eligible(s, id, EffectiveCap(forcedMax, ptxplus)) <==> Allowed(s, id, forcedMax, ptxplus)
  {
  }

  lemma {:induction false} KeptExactly(l: seq<Section>, s: Section, forcedMax: nat, ptxplus: bool)
    ensures s.arch == BestOrZero(l, s.id, EffectiveCap(forcedMax, ptxplus)) <==> IsKept(l, s, forcedMax, ptxplus)
  {
    var cap := EffectiveCap(forcedMax, ptxplus);
    BestIsLargest(l, s.id, cap);
    forall i | 0 <= i < |l| ensures Eligible(l[i], s.id, cap) <==> Allowed(l[i], s.id, forcedMax, ptxplus) {
      AllowedExactly(l[i], s.id, forcedMax, ptxplus);
    }
  }

  /** Pruning keeps, in order, exactly the sections whose architecture is the largest allowed PTX architecture
      of their identifier, or 0 where no PTX section is allowed. */
  lemma {:induction false} SurvivorsAt(l: seq<Section>, all: seq<Section>, forcedMax: nat, ptxplus: bool)
    returns (at: seq<nat>)
    ensures Picks(l, at, Survivors(l, all, EffectiveCap(forcedMax, ptxplus)))
    ensures forall i: nat :: i in at <==> i < |l| && IsKept(all, l[i], forcedMax, ptxplus)
  {
    at := [];
    if l != [] {
      var front, s, cap := l[..|l| - 1], l[|l| - 1], EffectiveCap(forcedMax, ptxplus);
      at := SurvivorsAt(front, all, forcedMax, ptxplus);
      assert l == front + [s];
      KeptExactly(all, s, forcedMax, ptxplus);
      at := PickNext(front, s, at, Survivors(front, all, cap), s.arch == BestOrZero(all, s.id, cap));
    }
  }

  /** Merging leaves, in order and in front, exactly the ELF sections that pruning keeps. */
  lemma {:induction false} KeptElfsAt(l: seq<Section>, all: seq<Section>, forcedMax: nat, ptxplus: bool)
    returns (at: seq<nat>)
    ensures Picks(l, at, Elfs(Survivors(l, all, EffectiveCap(forcedMax, ptxplus))))
    ensures forall i: nat :: i in at <==> i < |l| && l[i].ELF? && IsKept(all, l[i], forcedMax, ptxplus)
  {
    at := [];
    if l != [] {
      var front, s, cap := l[..|l| - 1], l[|l| - 1], EffectiveCap(forcedMax, ptxplus);
      at := KeptElfsAt(front, all, forcedMax, ptxplus);
      assert l == front + [s];
      KeptExactly(all, s, forcedMax, ptxplus);
      KeptElfsSnoc(front, s, all, cap);
      var kept, keep := Survivors(front, all, cap), s.ELF? && s.arch == BestOrZero(all, s.id, cap);
      at := PickNext(front, s, at, Elfs(kept), keep);
    }
  }

  lemma {:induction false} KeptElfsSnoc(l: seq<Section>, s: Section, all: seq<Section>, cap: nat)
    ensures var keep := s.ELF? && s.arch == BestOrZero(all, s.id, cap);
      Elfs(Survivors(l + [s], all, cap)) ==
        if keep then Elfs(Survivors(l, all, cap)) + [s] else Elfs(Survivors(l, all, cap))
  {
    assert (l + [s])[..|l|] == l;
    ElfsSnoc(Survivors(l, all, cap), s);
  }

  lemma {:induction false} ElfsSnoc(l: seq<Section>, s: Section)
    ensures Elfs(l + [s]) == if s.ELF? then Elfs(l) + [s] else Elfs(l)
  {
    assert (l + [s])[..|l|] == l;
  }

  /** The last PTX section of the identifier that pruning keeps. */
  ghost predicate IsLastKept(
    l: seq<Section>, all: seq<Section>, id: string, s: Section, forcedMax: nat, ptxplus: bool)
  {
    exists i :: 0 <= i < |l| && l[i] == s && IsMatch(s, id) && IsKept(all, s, forcedMax, ptxplus)
      && NoneKeptAfter(l, all, id, i, forcedMax, ptxplus)
  }

  ghost predicate NoneKeptAfter(
    l: seq<Section>, all: seq<Section>, id: string, i: nat, forcedMax: nat, ptxplus: bool)
  {
    forall k :: i < k < |l| ==> !(IsMatch(l[k], id) && IsKept(all, l[k], forcedMax, ptxplus))
  }

  /** Of an identifier's PTX sections, pruning keeps all of the largest allowed architecture, in order. */
  lemma {:induction false} KeptMatchesAt(
    l: seq<Section>, all: seq<Section>, id: string, forcedMax: nat, ptxplus: bool) returns (at: seq<nat>)
    ensures Picks(l, at, Matches(Survivors(l, all, EffectiveCap(forcedMax, ptxplus)), id))
    ensures forall i: nat :: i in at <==> i < |l| && IsMatch(l[i], id) && IsKept(all, l[i], forcedMax, ptxplus)
  {
    at := [];
    if l != [] {
      var front, s, cap := l[..|l| - 1], l[|l| - 1], EffectiveCap(forcedMax, ptxplus);
      at := KeptMatchesAt(front, all, id, forcedMax, ptxplus);
      assert l == front + [s];
      KeptExactly(all, s, forcedMax, ptxplus);
      KeptMatchesSnoc(front, s, all, id, cap);
      var kept, keep := Survivors(front, all, cap), IsMatch(s, id) && s.arch == BestOrZero(all, s.id, cap);
      at := PickNext(front, s, at, Matches(kept, id), keep);
    }
  }

  lemma {:induction false} KeptMatchesSnoc(l: seq<Section>, s: Section, all: seq<Section>, id: string, cap: nat)
    ensures var keep := IsMatch(s, id) && s.arch == BestOrZero(all, s.id, cap);
      Matches(Survivors(l + [s], all, cap), id) ==
        if keep then Matches(Survivors(l, all, cap), id) + [s] else Matches(Survivors(l, all, cap), id)
  {
    assert (l + [s])[..|l|] == l;
    MatchesSnoc(Survivors(l, all, cap), s, id);
  }

  lemma {:induction false} LastSurvivor(
    l: seq<Section>, all: seq<Section>, id: string, forcedMax: nat, ptxplus: bool)
    requires Matches(Survivors(l, all, EffectiveCap(forcedMax, ptxplus)), id) != []
    ensures var kept := Survivors(l, all, EffectiveCap(forcedMax, ptxplus));
      IsLastKept(l, all, id, LastMatch(kept, id), forcedMax, ptxplus)
  {
    var at := KeptMatchesAt(l, all, id, forcedMax, ptxplus);
    var last := at[|at| - 1];
    assert last in at;
    forall k: nat | last < k < |l| ensures k !in at {
    }
    assert NoneKeptAfter(l, all, id, last, forcedMax, ptxplus);
  }

  /** The initialised list: the ELF sections that pruning keeps, in order, then for each identifier with an
      allowed PTX section the last one of the largest architecture. */
  lemma {:induction false} InitialisedExactly(l: seq<Section>, forcedMax: nat, ptxplus: bool)
    returns (elfs: seq<Section>, at: seq<nat>, ids: seq<string>)
    ensures var list := Initialised(l, EffectiveCap(forcedMax, ptxplus));
      && Picks(l, at, elfs) && Distinct(ids) && |list| == |at| + |ids| && elfs <= list
      && forall k :: 0 <= k < |ids| ==> IsLastKept(l, l, ids[k], list[|at| + k], forcedMax, ptxplus)
    ensures forall i: nat :: i in at <==> i < |l| && l[i].ELF? && IsKept(l, l[i], forcedMax, ptxplus)
    ensures forall id :: id in ids <==> exists i :: 0 <= i < |l| && Allowed(l[i], id, forcedMax, ptxplus)
  {
    var cap := EffectiveCap(forcedMax, ptxplus);
    var kept := Survivors(l, l, cap);
    elfs, ids := Elfs(kept), PtxIds(kept);
    at := KeptElfsAt(l, l, forcedMax, ptxplus);
    PtxIdsHold(kept);
    forall k | 0 <= k < |ids|
      ensures IsLastKept(l, l, ids[k], Initialised(l, cap)[|at| + k], forcedMax, ptxplus)
    {
      LastSurvivor(l, l, ids[k], forcedMax, ptxplus);
    }
    forall id ensures id in ids <==> exists i :: 0 <= i < |l| && Allowed(l[i], id, forcedMax, ptxplus) {
      PruningKeepsBest(l, cap, id);
      BestIsLargest(l, id, cap);
      forall i | 0 <= i < |l| ensures Eligible(l[i], id, cap) <==> Allowed(l[i], id, forcedMax, ptxplus) {
        AllowedExactly(l[i], id, forcedMax, ptxplus);
      }
    }
  }

  /** Everything but the PTX sections of the given identifiers stays, in order. */
  lemma {:induction false} RestAt(l: seq<Section>, ids: seq<string>) returns (at: seq<nat>)
    ensures Picks(l, at, Rest(l, ids))
    ensures forall i: nat :: i in at <==> i < |l| && (l[i].ELF? || l[i].id !in ids)
  {
    at := [];
    if l != [] {
      var front, s := l[..|l| - 1], l[|l| - 1];
      at := RestAt(front, ids);
      assert l == front + [s];
      at := PickNext(front, s, at, Rest(front, ids), s.ELF? || s.id !in ids);
    }
  }

  /** The PTX sections of an identifier, all of them and in order. */
  lemma {:induction false} MatchesAt(l: seq<Section>, id: string) returns (at: seq<nat>)
    ensures Picks(l, at, Matches(l, id))
    ensures forall i: nat :: i in at <==> i < |l| && l[i].PTX? && l[i].id == id
  {
    at := [];
    if l != [] {
      var front, s := l[..|l| - 1], l[|l| - 1];
      at := MatchesAt(front, id);
      assert l == front + [s];
      at := PickNext(front, s, at, Matches(front, id), s.PTX? && s.id == id);
    }
  }

  /** C string functions stop at the first NUL. */
  lemma {:induction false} CStrStopsAtNul(s: string)
    ensures CStr(s) <= s && '\0' !in CStr(s)
    ensures |CStr(s)| < |s| ==> s[|CStr(s)|] == '\0'
  {
    if s != "" && s[0] != '\0' {
      CStrStopsAtNul(s[1..]);
    }
  }

  /** With dynamic parallelism on, any PTX section will do. */
  predicate Takes(s: Section, id: string, cdp: bool) {
    s.PTX? && (cdp || s.id == id)
  }

  ghost predicate NoneTakenBefore(l: seq<Section>, id: string, cdp: bool, i: nat)
    requires i <= |l|
  {
    forall k :: 0 <= k < i ==> !Takes(l[k], id, cdp)
  }

  /** The first PTX section that will do, or nothing exactly when there is none. */
  ghost predicate IsFirstPtx(l: seq<Section>, id: string, cdp: bool, found: Option<Section>) {
    match found
    case None => NoneTakenBefore(l, id, cdp, |l|)
    case Some(s) => exists i :: 0 <= i < |l| && l[i] == s && Takes(s, id, cdp) && NoneTakenBefore(l, id, cdp, i)
  }

  /** Looking in `a` and, failing that, in `b` finds the first PTX section of the two lists together. */
  lemma {:induction false} FirstPtxOfTwo(
    a: seq<Section>, b: seq<Section>, id: string, cdp: bool, inA: Option<Section>, inB: Option<Section>)
    requires IsFirstPtx(a, id, cdp, inA) && IsFirstPtx(b, id, cdp, inB)
    ensures IsFirstPtx(a + b, id, cdp, if inA.Some? then inA else inB)
  {
    if inA.Some? {
      var i :| 0 <= i < |a| && a[i] == inA.value && NoneTakenBefore(a, id, cdp, i);
      assert (a + b)[i] == a[i] && NoneTakenBefore(a + b, id, cdp, i);
    } else if inB.Some? {
      var i :| 0 <= i < |b| && b[i] == inB.value && NoneTakenBefore(b, id, cdp, i);
      assert (a + b)[|a| + i] == b[i] && NoneTakenBefore(a + b, id, cdp, |a| + i);
    }
  }

  lemma {:induction false} FindPtxIsFirst(l: seq<Section>, id: string, cdp: bool)
    ensures IsFirstPtx(l, id, cdp, FindPtx(l, id, cdp))
  {
    if l != [] {
      FindPtxIsFirst(l[1..], id, cdp);
      var inHead := if Takes(l[0], id, cdp) then Some(l[0]) else None;
      assert Takes(l[0], id, cdp) ==> NoneTakenBefore([l[0]], id, cdp, 0);
      assert IsFirstPtx([l[0]], id, cdp, inHead);
      FirstPtxOfTwo([l[0]], l[1..], id, cdp, inHead, FindPtx(l[1..], id, cdp));
      assert [l[0]] + l[1..] == l;
    }
  }

  lemma {:induction false} FirstPtxUnique(
    l: seq<Section>, id: string, cdp: bool, a: Option<Section>, b: Option<Section>)
    requires IsFirstPtx(l, id, cdp, a) && IsFirstPtx(l, id, cdp, b)
    ensures a == b
  {
  }

  lemma {:induction false} FirstElfUnique(l: seq<Section>, id: string, a: Option<Section>, b: Option<Section>)
    requires IsFirstElf(l, id, a) && IsFirstElf(l, id, b)
    ensures a == b
  {
  }

  /* Where merging stops */

  /** A file that is not named, missing or empty cannot be read. */
  predicate Unreadable(files: Files, name: string) {
    name == "" || name !in files || files[name] == ""
  }

  /** Merging aborts at the first section whose running file cannot be read, the last section excepted. */
  lemma {:induction false} ChainStopsAt(files: Files, ms: seq<Section>, i: nat, running: Files)
    requires i + 1 < |ms| && forall k :: 0 <= k < |ms| ==> ms[k].PTX?
    requires Chain(files, ms[..i + 1]) == Success(running) && Unreadable(running, ms[i].file)
    ensures Chain(files, ms) == Failure(CannotReadFile)
  {
    var front := ms[..|ms| - 1];
    if i + 2 == |ms| {
      assert front == ms[..i + 1];
    } else {
      assert front[..i + 1] == ms[..i + 1];
      ChainStopsAt(files, front, i, running);
    }
  }

  /** One more section takes what follows the first 50 bytes of the text before it, up to the first NUL, at the
      end of its file, which is created if need be; a shorter text leaves all files alone. */
  lemma {:induction false} ChainAppends(files: Files, ms: seq<Section>, s: Section, running: Files)
    requires ms != [] && s.PTX? && forall k :: 0 <= k < |ms| ==> ms[k].PTX?
    requires Chain(files, ms) == Success(running) && !Unreadable(running, ms[|ms| - 1].file)
    ensures var text := CStr(running[ms[|ms| - 1].file]);
      Chain(files, ms + [s]) ==
        if |text| < 50 then Success(running)
        else if s.file == "" then Failure(CannotOpenFile)
        else Success(running[s.file := (if s.file in running then running[s.file] else "") + text[50..]])
  {
    assert (ms + [s])[..|ms|] == ms;
  }
}
