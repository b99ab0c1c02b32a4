/** Which kernels a whole run restores and runs when resuming from or stopping at a checkpoint
    (libcuda/cuda_runtime_api.cc). */
module LaunchWindow {
  import opened Results
  import opened LaunchStack

  /** The numbers from `first` up to but not including `end`. */
  function Range(first: nat, end: nat): (r: seq<nat>)
    ensures |r| == if first < end then end - first else 0
    ensures forall i :: 0 <= i < |r| ==> r[i] == first + i
  {
    if first >= end then [] else seq(end - first, i => first + i)
  }

  function Uids(kernels: seq<Kernel>): (uids: seq<nat>)
    ensures |uids| == |kernels|
    ensures forall i :: 0 <= i < |kernels| ==> uids[i] == kernels[i].uid
  {
    seq(|kernels|, i requires 0 <= i < |kernels| => kernels[i].uid)
  }

  function Least(a: nat, b: nat): nat {
    if a < b then a else b
  }

  /** The first kernel that runs. */
  function First(w: Window): nat {
    if w.resume && w.resumeKernel > 1 then w.resumeKernel else 1
  }

  /** The last of `n` kernels that runs. */
  function Last(w: Window, n: nat): nat {
    if w.checkpoint then Least(n, U32(w.checkpointKernel)) else n
  }

  /** After `n` non-empty launches: the memory of kernels 1 to `resumeKernel` was restored, in order, and
      the kernels from the first to the last one in the window were pushed, in order. */
  ghost predicate WindowInv(w: Window, st: State, n: nat) {
    && st.nextUid == n + 1
    && Uids(st.pushed) == Range(First(w), Last(w, n) + 1)
    && st.restored == if w.resume then Range(1, Least(n, w.resumeKernel) + 1) else []
  }

  /** The invariant for some number of launches up to `most`. */
  ghost predicate WindowHolds(w: Window, st: State, most: nat) {
    1 <= st.nextUid <= most + 1 && WindowInv(w, st, st.nextUid - 1)
  }

  /** What a launch that runs or skips a kernel does to the two logs. */
  ghost predicate Logged(w: Window, st: State, next: State) {
    && next.nextUid == U32(st.nextUid + 1)
    && Uids(next.pushed) == (if InWindow(w, st.nextUid) then Uids(st.pushed) + [st.nextUid] else Uids(st.pushed))
    && next.restored ==
      (if w.resume && st.nextUid <= w.resumeKernel then st.restored + [st.nextUid] else st.restored)
  }

  lemma {:induction false} StepLogs(env: Env, st: State, op: Op)
    requires Step(env, st, op).Success?
    ensures var next := Step(env, st, op).value;
      || Logged(env.window, st, next)
      || (next.nextUid == st.nextUid && next.pushed == st.pushed && next.restored == st.restored)
  {
  }

  lemma {:induction false} RangeGrows(first: nat, end: nat)
    ensures first <= end ==> Range(first, end + 1) == Range(first, end) + [end]
    ensures end < first ==> Range(first, end + 1) == Range(first, end)
  {
  }

  /** Kernel `n + 1` is pushed exactly when it extends the range that was. */
  lemma {:induction false} WindowGrows(w: Window, n: nat)
    requires n + 1 < TWO_TO_32
    ensures Range(First(w), Last(w, n + 1) + 1) ==
      if InWindow(w, n + 1) then Range(First(w), Last(w, n) + 1) + [n + 1] else Range(First(w), Last(w, n) + 1)
  {
    if Last(w, n + 1) == n + 1 {
      assert Last(w, n) == n;
      RangeGrows(First(w), n + 1);
    } else {
      assert Last(w, n + 1) == Last(w, n) < n + 1;
    }
  }

  /** Kernel `n + 1` is restored exactly when it extends the range that was. */
  lemma {:induction false} RestoredGrows(w: Window, n: nat)
    ensures Range(1, Least(n + 1, w.resumeKernel) + 1) ==
      if n + 1 <= w.resumeKernel then Range(1, Least(n, w.resumeKernel) + 1) + [n + 1]
      else Range(1, Least(n, w.resumeKernel) + 1)
  {
    if n + 1 <= w.resumeKernel {
      RangeGrows(1, n + 1);
    }
  }

  lemma {:induction false} LogKeepsWindow(w: Window, st: State, n: nat, next: State)
    requires WindowInv(w, st, n) && Logged(w, st, next) && n + 2 < TWO_TO_32
    ensures WindowInv(w, next, n + 1)
  {
    WindowGrows(w, n);
    RestoredGrows(w, n);
  }

  lemma {:induction false} LaunchesBelowLength(ops: seq<Op>)
    ensures LaunchesIn(ops) <= |ops|
  {
    if ops != [] {
      LaunchesBelowLength(ops[..|ops| - 1]);
    }
  }

  lemma {:induction false} RunLogs(env: Env, start: State, ops: seq<Op>)
    requires IsFresh(env, start) && Run(env, start, ops).Success? && |ops| + 2 < TWO_TO_32
    ensures WindowHolds(env.window, Run(env, start, ops).value, |ops|)
  {
    if ops != [] {
      var front, op := ops[..|ops| - 1], ops[|ops| - 1];
      RunLogs(env, start, front);
      var st := Run(env, start, front).value;
      StepKeepsWindow(env, st, op, |front|);
    } else {
      FreshWindow(env, start);
    }
  }

  lemma {:induction false} FreshWindow(env: Env, start: State)
    requires IsFresh(env, start)
    ensures WindowHolds(env.window, start, 0)
  {
  }

  lemma {:induction false} StepKeepsWindow(env: Env, st: State, op: Op, n: nat)
    requires WindowHolds(env.window, st, n) && Step(env, st, op).Success? && n + 2 < TWO_TO_32
    ensures WindowHolds(env.window, Step(env, st, op).value, n + 1)
  {
    var next := Step(env, st, op).value;
    StepLogs(env, st, op);
    if Logged(env.window, st, next) {
      LogKeepsWindow(env.window, st, st.nextUid - 1, next);
    }
  }

  /** In every run, the kernels that run are a contiguous range in launch order: from the one to resume
      from up to the one to checkpoint; the memory restored is that of every kernel up to the first. */
  lemma {:induction false} RunFollowsWindow(env: Env, start: State, ops: seq<Op>)
    requires IsFresh(env, start) && Run(env, start, ops).Success? && |ops| + 2 < TWO_TO_32
    ensures WindowInv(env.window, Run(env, start, ops).value, LaunchesIn(ops))
  {
    RunLogs(env, start, ops);
    LaunchesBelowLength(ops);
    RunKeepsInvariant(env, start, ops);
    assert NextUid(ops) == 1 + LaunchesIn(ops);
  }
}
