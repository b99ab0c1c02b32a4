/** Which names handles have and which names are loaded, read off the calls alone
    (libcuda/cuda_runtime_api.cc). */
module HandleNames {
  import opened Results
  import opened Sections
  import opened SymbolTables
  import opened FatBinary

  /** The file name of the registration that issued handle `h`. */
  function Filename(calls: seq<Call>, h: nat): string {
    if calls == [] then ""
    else if calls[|calls| - 1].RegisterFatBinary? && Registers(calls) == h then calls[|calls| - 1].filename
    else Filename(calls[..|calls| - 1], h)
  }

  /** Call `k` issues handle `h`. */
  predicate IssuesAt(calls: seq<Call>, k: nat, h: nat) {
    k < |calls| && calls[k].RegisterFatBinary? && Registers(calls[..k + 1]) == h
  }

  /** Every issued handle is issued by one registration, whose name it has. */
  lemma {:induction false} FilenameIs(calls: seq<Call>, h: nat) returns (k: nat)
    requires Issued(calls, h)
    ensures IssuesAt(calls, k, h) && Filename(calls, h) == calls[k].filename
  {
    var n := |calls| - 1;
    assert calls[..n + 1] == calls;
    if calls[n].RegisterFatBinary? && Registers(calls) == h {
      k := n;
    } else {
      k := FilenameIs(calls[..n], h);
      assert calls[..n][..k + 1] == calls[..k + 1];
    }
  }

  predicate Issued(calls: seq<Call>, h: nat) {
    1 <= h <= Registers(calls)
  }

  ghost predicate ParsedIn(calls: seq<Call>, h: nat) {
    exists k :: 0 <= k < |calls| && calls[k] == ParseBinary(h)
  }

  /** Call `k` is the first parse of a handle, which was issued before it under the name `f`. */
  ghost predicate LoadsNameAt(calls: seq<Call>, k: nat, f: string) {
    && k < |calls| && calls[k].ParseBinary?
    && Issued(calls[..k], calls[k].handle) && Filename(calls[..k], calls[k].handle) == f
    && !ParsedIn(calls[..k], calls[k].handle)
  }

  ghost predicate LoadsName(calls: seq<Call>, f: string) {
    exists k: nat :: LoadsNameAt(calls, k, f)
  }

  lemma {:induction false} RegistersSnoc(calls: seq<Call>, c: Call)
    ensures Registers(calls + [c]) == Registers(calls) + if c.RegisterFatBinary? then 1 else 0
  {
    assert (calls + [c])[..|calls|] == calls;
  }

  lemma {:induction false} FilenameSnoc(calls: seq<Call>, c: Call, h: nat)
    ensures Filename(calls + [c], h) ==
      if c.RegisterFatBinary? && Registers(calls) + 1 == h then c.filename else Filename(calls, h)
  {
    assert (calls + [c])[..|calls|] == calls;
    RegistersSnoc(calls, c);
  }

  lemma {:induction false} ParsedSnoc(calls: seq<Call>, c: Call, h: nat)
    ensures ParsedIn(calls + [c], h) <==> ParsedIn(calls, h) || c == ParseBinary(h)
  {
    var all := calls + [c];
    assert all[|calls|] == c;
    if k :| 0 <= k < |calls| && calls[k] == ParseBinary(h) {
      assert all[k] == ParseBinary(h);
    }
  }

  lemma {:induction false} LoadsNameSnoc(calls: seq<Call>, c: Call, f: string)
    ensures LoadsName(calls + [c], f) <==>
      || LoadsName(calls, f)
      || (&& c.ParseBinary? && Issued(calls, c.handle) && Filename(calls, c.handle) == f
          && !ParsedIn(calls, c.handle))
  {
    var all := calls + [c];
    assert all[..|calls|] == calls && all[|calls|] == c;
    forall k: nat | k < |calls| ensures LoadsNameAt(all, k, f) <==> LoadsNameAt(calls, k, f) {
      assert all[..k] == calls[..k] && all[k] == calls[k];
    }
    if k: nat :| LoadsNameAt(calls, k, f) {
      assert LoadsNameAt(all, k, f);
    }
    assert LoadsNameAt(all, |calls|, f) <==>
      c.ParseBinary? && Issued(calls, c.handle) && Filename(calls, c.handle) == f && !ParsedIn(calls, c.handle);
  }

  /** What the calls say is what the state holds: issued handles have their registrations' names, others the
      empty one; parsed handles are those some call parsed; a name other than the empty one is loaded exactly
      when some call is the first parse of an issued handle of that name. */
  ghost predicate CallsInv(calls: seq<Call>, st: Api) {
    && st.nextHandle == 1 + Registers(calls)
    && (forall h: nat :: NameOf(st, h) == if Issued(calls, h) then Filename(calls, h) else "")
    && (forall h: nat :: h in st.registered <==> ParsedIn(calls, h))
    && (forall f :: f != "" ==> (f in st.loaded <==> LoadsName(calls, f)))
  }

  lemma {:induction false} RegisterKeepsCalls(calls: seq<Call>, st: Api, filename: string, next: Api)
    requires CallsInv(calls, st) && RegisterChange(st, filename, next)
    ensures CallsInv(calls + [RegisterFatBinary(filename)], next)
  {
    var c := RegisterFatBinary(filename);
    RegistersSnoc(calls, c);
    forall h: nat ensures NameOf(next, h) == if Issued(calls + [c], h) then Filename(calls + [c], h) else "" {
      FilenameSnoc(calls, c, h);
      assert NameOf(st, h) == if Issued(calls, h) then Filename(calls, h) else "";
    }
    forall h: nat ensures h in next.registered <==> ParsedIn(calls + [c], h) {
      ParsedSnoc(calls, c, h);
    }
    forall f | f != "" ensures f in next.loaded <==> LoadsName(calls + [c], f) {
      LoadsNameSnoc(calls, c, f);
    }
  }

  lemma {:induction false} ParseKeepsCalls(calls: seq<Call>, st: Api, h: nat, next: Api)
    requires CallsInv(calls, st)
    requires if h in st.registered then next == st else ParseChange(st, h, next)
    ensures CallsInv(calls + [ParseBinary(h)], next)
  {
    var c := ParseBinary(h);
    RegistersSnoc(calls, c);
    forall g: nat ensures NameOf(next, g) == if Issued(calls + [c], g) then Filename(calls + [c], g) else "" {
      FilenameSnoc(calls, c, g);
      assert NameOf(next, g) == NameOf(st, g);
    }
    forall g: nat ensures g in next.registered <==> ParsedIn(calls + [c], g) {
      ParsedSnoc(calls, c, g);
    }
    forall f | f != "" ensures f in next.loaded <==> LoadsName(calls + [c], f) {
      LoadsNameSnoc(calls, c, f);
      assert NameOf(st, h) == if Issued(calls, h) then Filename(calls, h) else "";
    }
  }

  lemma {:induction false} RunKeepsCalls(env: Config, start: Api, calls: seq<Call>)
    requires start == Fresh(start.sections, start.libSections, start.files) && Run(env, start, calls).Success?
    ensures CallsInv(calls, Run(env, start, calls).value)
  {
    if calls != [] {
      var front, c := calls[..|calls| - 1], calls[|calls| - 1];
      RunKeepsCalls(env, start, front);
      var st, next := Run(env, start, front).value, Run(env, start, calls).value;
      assert front + [c] == calls;
      match c {
        case RegisterFatBinary(f) =>
          RegisterEffect(env, st, f);
          RegisterKeepsCalls(front, st, f, next);
        case ParseBinary(h) =>
          ParseEffect(env, st, h);
          ParseKeepsCalls(front, st, h, next);
      }
    }
  }

  /** The last handle to be parsed for the first time, 0 if none was. */
  ghost predicate IsLastParsed(calls: seq<Call>, h: nat) {
    if h == 0 && NoFirstParse(calls, 0) then true
    else exists k: nat :: FirstParseAt(calls, k) && calls[k].handle == h && NoFirstParse(calls, k + 1)
  }

  ghost predicate FirstParseAt(calls: seq<Call>, k: nat) {
    k < |calls| && calls[k].ParseBinary? && !ParsedIn(calls[..k], calls[k].handle)
  }

  ghost predicate NoFirstParse(calls: seq<Call>, from: nat) {
    forall k: nat :: from <= k < |calls| ==> !FirstParseAt(calls, k)
  }

  lemma {:induction false} LastParsedSnoc(calls: seq<Call>, c: Call, h: nat)
    requires IsLastParsed(calls, h)
    ensures IsLastParsed(calls + [c], if c.ParseBinary? && !ParsedIn(calls, c.handle) then c.handle else h)
  {
    var all := calls + [c];
    forall k: nat | k < |calls| ensures FirstParseAt(all, k) <==> FirstParseAt(calls, k) {
      assert all[..k] == calls[..k] && all[k] == calls[k];
    }
    assert all[..|calls|] == calls && all[|calls|] == c;
    if FirstParseAt(all, |calls|) {
      assert NoFirstParse(all, |calls| + 1);
    } else if !NoFirstParse(calls, 0) || h != 0 {
      var k: nat :| FirstParseAt(calls, k) && calls[k].handle == h && NoFirstParse(calls, k + 1);
      assert FirstParseAt(all, k) && all[k].handle == h && NoFirstParse(all, k + 1);
    }
  }

  lemma {:induction false} StepHandle(env: Config, st: Api, c: Call)
    requires Step(env, st, c).Success?
    ensures Step(env, st, c).value.lastHandle ==
      if c.ParseBinary? && c.handle !in st.registered then c.handle else st.lastHandle
  {
  }

  /** Over every run from the start, the handle of the binary added last is that of the last call that parsed
      a handle for the first time. */
  lemma {:induction false} RunKeepsLastHandle(env: Config, start: Api, calls: seq<Call>)
    requires start == Fresh(start.sections, start.libSections, start.files) && Run(env, start, calls).Success?
    ensures IsLastParsed(calls, Run(env, start, calls).value.lastHandle)
  {
    if calls != [] {
      var front, c := calls[..|calls| - 1], calls[|calls| - 1];
      assert front + [c] == calls;
      RunKeepsLastHandle(env, start, front);
      RunKeepsCalls(env, start, front);
      var st := Run(env, start, front).value;
      StepHandle(env, st, c);
      LastParsedSnoc(front, c, st.lastHandle);
    }
  }

  /** The handle was parsed before it was issued under a name, and no first parse of an issued handle of that
      name was made. */
  ghost predicate LeftBehind(calls: seq<Call>, h: nat) {
    && Early(calls, h) && Issued(calls, h)
    && Filename(calls, h) != "" && !LoadsName(calls, Filename(calls, h))
  }

  /** Over every run from the start: all parsed handles are bound to their own names' table exactly when no
      handle was parsed before it was issued under a name that no first parse of an issued handle loads. */
  lemma {:induction false} BoundToNamesByCalls(env: Config, start: Api, calls: seq<Call>)
    requires start == Fresh(start.sections, start.libSections, start.files) && Run(env, start, calls).Success?
    ensures (forall h :: h in Run(env, start, calls).value.registered ==> BoundToName(Run(env, start, calls).value, h))
      <==> forall h: nat :: !LeftBehind(calls, h)
  {
    var st := Run(env, start, calls).value;
    BoundToNamesExactly(env, start, calls);
    RunKeepsEarly(env, start, calls);
    RunKeepsCalls(env, start, calls);
    forall h: nat ensures LeftBehind(calls, h) <==> Early(calls, h) && NameOf(st, h) !in st.loaded {
      assert Early(calls, h) ==> BoundToEmpty(st, h);
      assert NameOf(st, h) == if Issued(calls, h) then Filename(calls, h) else "";
    }
  }
}
