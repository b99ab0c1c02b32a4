/** What the file of a merged PTX section holds (libcuda/cuda_runtime_api.cc). */
module MergedFiles {
  import opened Sequences
  import opened Sections

  /** Files the sections name, each its own, with something in them and no NUL. */
  ghost predicate OwnFiles(files: Files, ms: seq<Section>) {
    && (forall i :: 0 <= i < |ms| ==> ms[i].PTX? && OwnFile(files, ms[i].file))
    && (forall i, j :: 0 <= i < j < |ms| ==> ms[i].file != ms[j].file)
  }

  ghost predicate OwnFile(files: Files, name: string) {
    name != "" && name in files && files[name] != "" && '\0' !in files[name]
  }

  function Contents(files: Files, ms: seq<Section>): (texts: seq<string>)
    requires forall i :: 0 <= i < |ms| ==> ms[i].PTX? && ms[i].file in files
    ensures |texts| == |ms|
  {
    seq(|ms|, i requires 0 <= i < |ms| => files[ms[i].file])
  }

  /** The running merge: each text followed by the program text of what was merged before it. */
  function RunText(texts: seq<string>): string {
    if texts == [] then "" else texts[|texts| - 1] + Tail(RunText(texts[..|texts| - 1]))
  }

  /** The program texts from the last to the first. */
  function TailsDown(texts: seq<string>): string {
    if texts == [] then "" else Tail(texts[|texts| - 1]) + TailsDown(texts[..|texts| - 1])
  }

  function TotalLength(texts: seq<string>): nat {
    if texts == [] then 0 else TotalLength(texts[..|texts| - 1]) + |texts[|texts| - 1]|
  }

  /** A text shorter than a header comes only after texts without program text. */
  ghost predicate ShortOnlyFirst(texts: seq<string>) {
    forall j, i :: 0 <= j < i < |texts| && |texts[i]| < HEADER ==> |texts[j]| <= HEADER
  }

  lemma {:induction false} NoTails(texts: seq<string>)
    ensures TailsDown(texts) == "" <==> forall i :: 0 <= i < |texts| ==> |texts[i]| <= HEADER
  {
    if texts != [] {
      NoTails(texts[..|texts| - 1]);
    }
  }

  lemma {:induction false} RunTailBound(texts: seq<string>)
    ensures |Tail(RunText(texts))| <= |TailsDown(texts)|
  {
    if texts != [] {
      RunTailBound(texts[..|texts| - 1]);
    }
  }

  /** One more text: a whole header is cut from it alone, a shorter one from what follows too. */
  lemma TailStep(t: string, run: string, down: string)
    requires |run| <= |down|
    ensures Tail(t + run) == Tail(t) + down <==> if |t| >= HEADER then run == down else down == ""
  {
    if |t| >= HEADER {
      assert Tail(t + run) == Tail(t) + run;
      SamePrefix(Tail(t), run, down);
    } else if down != "" {
      assert |Tail(t + run)| < |down|;
    }
  }

  lemma {:induction false} ShortStep(front: seq<string>, t: string)
    ensures ShortOnlyFirst(front + [t]) <==>
      ShortOnlyFirst(front) && (|t| < HEADER ==> forall i :: 0 <= i < |front| ==> |front[i]| <= HEADER)
  {
    var texts := front + [t];
    assert forall i :: 0 <= i < |front| ==> texts[i] == front[i];
    assert texts[|front|] == t;
  }

  lemma {:induction false} RunTailExact(texts: seq<string>)
    ensures Tail(RunText(texts)) == TailsDown(texts) <==> ShortOnlyFirst(texts)
  {
    if texts != [] {
      var front, t := texts[..|texts| - 1], texts[|texts| - 1];
      assert texts == front + [t];
      RunTailExact(front);
      RunTailBound(front);
      NoTails(front);
      ShortStep(front, t);
      TailStep(t, Tail(RunText(front)), TailsDown(front));
    }
  }

  /** The merge is the last text followed by the program texts of the others, last to first, exactly when
      no text before the last that is shorter than a header follows one with program text. */
  lemma {:induction false} MergeClosedForm(texts: seq<string>)
    requires texts != []
    ensures var front := texts[..|texts| - 1];
      RunText(texts) == texts[|texts| - 1] + TailsDown(front) <==> ShortOnlyFirst(front)
  {
    RunTailExact(texts[..|texts| - 1]);
    SamePrefix(texts[|texts| - 1], Tail(RunText(texts[..|texts| - 1])), TailsDown(texts[..|texts| - 1]));
  }

  lemma SamePrefix(t: string, x: string, y: string)
    ensures t + x == t + y <==> x == y
  {
    assert (t + x)[|t|..] == x && (t + y)[|t|..] == y;
  }

  /** No running merge is shorter than a header. */
  ghost predicate NeverShort(texts: seq<string>) {
    texts == [] || (NeverShort(texts[..|texts| - 1]) && |RunText(texts)| >= HEADER)
  }

  /** Each step loses exactly the header, or everything if the running text is shorter than that: the
      merged length falls short of the lengths added up by one header per step exactly when no running
      text before the last is shorter than a header, and otherwise by less. */
  lemma {:induction false} MergedLength(texts: seq<string>)
    requires texts != []
    ensures |RunText(texts)| + HEADER * (|texts| - 1) >= TotalLength(texts)
    ensures |RunText(texts)| + HEADER * (|texts| - 1) == TotalLength(texts) <==> NeverShort(texts[..|texts| - 1])
  {
    if |texts| > 1 {
      MergedLength(texts[..|texts| - 1]);
    }
  }

  /** A short text in the middle takes bytes of its predecessor's program text with it: as many as it is
      short of a header, for the header is cut from the two of them joined. */
  lemma {:induction false} ShortMiddleCutsPredecessor(a: string, b: string, c: string)
    requires |b| < HEADER < |a|
    ensures var short, program := HEADER - |b|, a[HEADER..];
      RunText([a, b, c]) == c + if |program| <= short then "" else program[short..]
  {
    assert [a, b, c][..2] == [a, b] && [a, b][..1] == [a] && [a][..0] == [];
    assert RunText([]) == "" && RunText([a]) == a + "" == a;
    assert RunText([a, b]) == b + a[HEADER..];
  }

  /** Merging an identifier whose sections have files of their own succeeds, leaves the merge in the file
      of the last section, and touches no other identifier's file. */
  lemma {:induction false} ChainMerges(files: Files, ms: seq<Section>)
    requires OwnFiles(files, ms) && ms != []
    ensures Chain(files, ms).Success?
    ensures var after := Chain(files, ms).value;
      && after.Keys == files.Keys
      && after[ms[|ms| - 1].file] == RunText(Contents(files, ms))
      && (forall name :: name in files && (forall i :: 0 <= i < |ms| ==> ms[i].file != name) ==>
            after[name] == files[name])
  {
    var n := |ms|;
    var texts := Contents(files, ms);
    if n == 1 {
      assert RunText(texts[..0]) == "";
    } else {
      var front := ms[..n - 1];
      ChainMerges(files, front);
      RunTextClean(files, front);
      assert Contents(files, front) == texts[..n - 1];
      AppendMerges(Chain(files, front).value, front[n - 2].file, ms[n - 1].file, RunText(texts[..n - 1]));
    }
  }

  lemma AppendMerges(files: Files, from: string, to: string, running: string)
    requires from in files && files[from] == running && running != "" && '\0' !in running
    requires from != "" && to != "" && to in files && from != to
    ensures AppendTail(files, from, to).Success?
    ensures var after := AppendTail(files, from, to).value;
      && after.Keys == files.Keys
      && after[to] == files[to] + Tail(running)
      && forall name :: name in files && name != to ==> after[name] == files[name]
  {
    CStrWhole(running);
    assert files[to] + "" == files[to];
  }

  /** Texts without NUL merge to a text without NUL, no shorter than the last of them. */
  lemma {:induction false} RunTextClean(files: Files, ms: seq<Section>)
    requires OwnFiles(files, ms)
    ensures '\0' !in RunText(Contents(files, ms))
    ensures ms != [] ==> RunText(Contents(files, ms)) != ""
  {
    if ms != [] {
      var front := ms[..|ms| - 1];
      RunTextClean(files, front);
      assert Contents(files, ms)[..|ms| - 1] == Contents(files, front);
      assert OwnFile(files, ms[|ms| - 1].file);
    }
  }

  /* All identifiers */

  /** Every PTX section of the list has a file of its own. */
  ghost predicate OwnAll(files: Files, l: seq<Section>) {
    && (forall i :: 0 <= i < |l| && l[i].PTX? ==> OwnFile(files, l[i].file))
    && (forall i, j :: 0 <= i < j < |l| && l[i].PTX? && l[j].PTX? ==> l[i].file != l[j].file)
  }

  lemma {:induction false} MatchIn(l: seq<Section>, id: string, k: nat) returns (i: nat)
    requires k < |Matches(l, id)|
    ensures i < |l| && l[i] == Matches(l, id)[k]
  {
    var front := l[..|l| - 1];
    if k < |Matches(front, id)| {
      i := MatchIn(front, id, k);
    } else {
      i := |l| - 1;
    }
  }

  lemma {:induction false} MatchesOwn(files: Files, l: seq<Section>, id: string)
    requires OwnAll(files, l)
    ensures OwnFiles(files, Matches(l, id))
  {
    if l != [] {
      var front := l[..|l| - 1];
      MatchesOwn(files, front, id);
      if IsMatch(l[|l| - 1], id) {
        forall k | 0 <= k < |Matches(front, id)| ensures Matches(front, id)[k].file != l[|l| - 1].file {
          var i := MatchIn(front, id, k);
          assert l[i] == front[i];
        }
      }
    }
  }

  /** The merge of one identifier leaves the sections of another alone. */
  lemma OthersApart(files: Files, l: seq<Section>, id: string, k: nat, other: string, n: nat)
    requires OwnAll(files, l) && id != other && k < |Matches(l, id)| && n < |Matches(l, other)|
    ensures Matches(l, id)[k].file != Matches(l, other)[n].file
  {
    var i := MatchIn(l, id, k);
    var j := MatchIn(l, other, n);
    assert i != j;
  }

  /** The text merged for an identifier. */
  function MergedText(files: Files, l: seq<Section>, id: string): string
    requires forall i :: 0 <= i < |Matches(l, id)| ==> Matches(l, id)[i].file in files
  {
    RunText(Contents(files, Matches(l, id)))
  }

  /** Files once the identifiers have been merged: each one's last section holds its merge, and the
      sections of every other identifier are as they were. */
  ghost predicate AllMerged(files: Files, l: seq<Section>, ids: seq<string>, after: Files)
    requires OwnAll(files, l)
  {
    && after.Keys == files.Keys
    && (forall id :: MatchesMerged(files, l, ids, after, id))
  }

  ghost predicate MatchesMerged(files: Files, l: seq<Section>, ids: seq<string>, after: Files, id: string)
    requires OwnAll(files, l)
  {
    MatchesOwn(files, l, id);
    var ms := Matches(l, id);
    if id in ids then ms != [] && ms[|ms| - 1].file in after && after[ms[|ms| - 1].file] == MergedText(files, l, id)
    else forall k :: 0 <= k < |ms| ==> ms[k].file in after && after[ms[k].file] == files[ms[k].file]
  }

  lemma {:induction false} ChainAllMerges(files: Files, l: seq<Section>, ids: seq<string>)
    requires OwnAll(files, l) && Present(l, ids) && Distinct(ids)
    ensures ChainAll(files, l, ids).Success? && AllMerged(files, l, ids, ChainAll(files, l, ids).value)
  {
    if ids == [] {
      forall id ensures MatchesMerged(files, l, ids, files, id) {
        MatchesOwn(files, l, id);
      }
    } else {
      var front, id := ids[..|ids| - 1], ids[|ids| - 1];
      ChainAllMerges(files, l, front);
      MergeOneMore(files, l, front, ChainAll(files, l, front).value, id);
      assert ids == front + [id];
    }
  }

  lemma MergeOneMore(files: Files, l: seq<Section>, ids: seq<string>, before: Files, id: string)
    requires OwnAll(files, l) && AllMerged(files, l, ids, before) && id !in ids && Matches(l, id) != []
    ensures var r := Chain(before, Matches(l, id));
      r.Success? && AllMerged(files, l, ids + [id], r.value)
  {
    var ms := Matches(l, id);
    MatchesOwn(files, l, id);
    assert MatchesMerged(files, l, ids, before, id);
    assert OwnFiles(before, ms) && Contents(before, ms) == Contents(files, ms);
    ChainMerges(before, ms);
    var after := Chain(before, ms).value;
    forall other ensures MatchesMerged(files, l, ids + [id], after, other) {
      MatchesOwn(files, l, other);
      assert MatchesMerged(files, l, ids, before, other);
      if other != id {
        forall n | 0 <= n < |Matches(l, other)|
          ensures after[Matches(l, other)[n].file] == before[Matches(l, other)[n].file]
        {
          forall k | 0 <= k < |ms| ensures ms[k].file != Matches(l, other)[n].file {
            OthersApart(files, l, id, k, other, n);
          }
        }
      }
    }
  }
}
