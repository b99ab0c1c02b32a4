/** What every launch of a run does, read off the calls before it: whose grid, block and arguments it takes,
    and when it is refused (libcuda/cuda_runtime_api.cc). */
module LaunchCalls {
  import opened Results
  import opened Sequences
  import opened KernelParams
  import opened LaunchStack
  import opened DriverLaunch
  import opened LaunchWindow

  /* The configuration of a launch */

  /** A grid or block whose number of elements 2^32 divides. */
  predicate WrapsToZero(d: Dim3) {
    Volume(d) % TWO_TO_32 == 0
  }

  /** Call `p` launches the configuration that call `q` opened. */
  ghost predicate LaunchOf(ops: seq<Op>, p: nat, q: nat) {
    p < |ops| && ops[p].Launch? && OpensAndStays(ops[..p], Depth(ops[..p]) - 1, q)
  }

  predicate HasWork(ops: seq<Op>, q: nat)
    requires q < |ops| && ops[q].Configure?
  {
    !WrapsToZero(ops[q].grid) && !WrapsToZero(ops[q].block)
  }

  /** Call `p` launches a kernel that has blocks and threads to run. */
  ghost predicate RunsAt(ops: seq<Op>, p: nat) {
    exists q: nat :: LaunchOf(ops, p, q) && HasWork(ops, q)
  }

  ghost predicate NeverNegative(ops: seq<Op>) {
    forall k: nat :: k <= |ops| ==> Depth(ops[..k]) >= 0
  }

  lemma {:induction false} PrefixNeverNegative(ops: seq<Op>, n: nat)
    requires NeverNegative(ops) && n <= |ops|
    ensures NeverNegative(ops[..n])
  {
    forall k: nat | k <= n ensures Depth(ops[..n][..k]) >= 0 {
      assert ops[..n][..k] == ops[..k];
    }
  }

  /** `c` was opened by the call, and is refused by volume. */
  ghost predicate OpenedBy(c: LaunchConfig, open: Op)
    requires open.Configure?
  {
    && c.grid == open.grid && c.block == open.block && c.stream == open.stream
    && (CannotLaunch(c) <==> WrapsToZero(open.grid) || WrapsToZero(open.block))
  }

  lemma {:induction false} CurrentOpened(ops: seq<Op>, q: nat)
    requires NeverNegative(ops) && OpensAndStays(ops, Depth(ops) - 1, q) && Depth(ops) > 0
    ensures OpenedBy(Current(ops), ops[q])
  {
    OpenerMatches(ops, Depth(ops) - 1);
    OpenerUnique(ops, Depth(ops) - 1, q, Opener(ops, Depth(ops) - 1));
    RefusedExactly(ops[q].grid);
    RefusedExactly(ops[q].block);
  }

  lemma {:induction false} EndsByVolume(ops: seq<Op>, p: nat)
    requires NeverNegative(ops) && p < |ops| && (ops[p].Launch? ==> Depth(ops[..p]) > 0)
    ensures EndsInLaunch(ops[..p + 1]) <==> RunsAt(ops, p)
  {
    var front := ops[..p];
    assert ops[..p + 1][..p] == front && ops[..p + 1][p] == ops[p];
    if ops[p].Launch? {
      PrefixNeverNegative(ops, p);
      var q := Opener(front, Depth(front) - 1);
      OpenerMatches(front, Depth(front) - 1);
      CurrentOpened(front, q);
      assert LaunchOf(ops, p, q);
      forall r: nat | LaunchOf(ops, p, r) ensures r == q {
        OpenerUnique(front, Depth(front) - 1, r, q);
      }
    }
  }

  /* Runs cut short */

  lemma {:induction false} RunPrefix(env: Env, st: State, ops: seq<Op>, n: nat)
    requires Run(env, st, ops).Success? && n < |ops|
    ensures Run(env, st, ops[..n]).Success? && Run(env, st, ops[..n + 1]).Success?
    ensures Run(env, st, ops[..n + 1]) == Step(env, Run(env, st, ops[..n]).value, ops[n])
  {
    assert ops == ops[..n + 1] + ops[n + 1..];
    RunConcat(env, st, ops[..n + 1], ops[n + 1..]);
    assert ops[..n + 1][..n] == ops[..n] && ops[..n + 1][n] == ops[n];
  }

  lemma {:induction false} LaunchHasConfig(env: Env, start: State, ops: seq<Op>, p: nat)
    requires IsFresh(env, start) && Run(env, start, ops).Success? && p < |ops| && ops[p].Launch?
    ensures Depth(ops[..p]) > 0
  {
    RunPrefix(env, start, ops, p);
    RunKeepsInvariant(env, start, ops[..p]);
  }

  /* What a launch does */

  /** The number is between the kernel to resume from and the one to checkpoint, as far as these are set. */
  predicate BetweenCheckpoints(w: Window, uid: nat) {
    && (w.resume ==> w.resumeKernel <= uid)
    && (w.checkpoint ==> uid <= w.checkpointKernel % TWO_TO_32)
  }

  /** The kernel is handed over with the next number and the grid, block and stream of its configure call. */
  ghost predicate HandedOver(open: Op, before: State, after: State)
    requires open.Configure?
  {
    && |after.pushed| == |before.pushed| + 1 && before.pushed <= after.pushed
    && var k := after.pushed[|before.pushed|];
      k.uid == before.nextUid && k.grid == open.grid && k.block == open.block && k.stream == open.stream
  }

  /** The launch of a configuration: if 2^32 divides the volume of its grid or of its block it only pops and
      reports; otherwise it uses up a number, and hands its kernel over if the number is in the window. */
  ghost predicate LaunchDoes(w: Window, open: Op, before: State, after: State)
    requires open.Configure?
  {
    && before.stack != [] && after.stack == before.stack[..|before.stack| - 1]
    && if WrapsToZero(open.grid) || WrapsToZero(open.block) then
         after == before.(stack := after.stack, lastError := InvalidConfiguration)
       else
         && after.nextUid == (before.nextUid + 1) % TWO_TO_32 && after.lastError == CudaSuccess
         && if BetweenCheckpoints(w, before.nextUid) then HandedOver(open, before, after)
            else after.pushed == before.pushed
  }

  lemma {:induction false} StepByConfig(env: Env, st: State, host: nat, open: Op)
    requires st.stack != [] && open.Configure? && OpenedBy(st.stack[|st.stack| - 1], open)
    requires Launched(env, st, host).Success?
    ensures LaunchDoes(env.window, open, st, Launched(env, st, host).value)
  {
  }

  /** In every run, a launch is refused, leaving all but the stack and the error as it was, exactly when 2^32
      divides the number of blocks or of threads of its matching configure call; every other one is numbered,
      and handed over with that call's grid, block and stream if its number is in the window. */
  lemma {:induction false} LaunchByVolumes(env: Env, start: State, ops: seq<Op>, p: nat, q: nat)
    requires IsFresh(env, start) && Run(env, start, ops).Success? && LaunchOf(ops, p, q)
    ensures Run(env, start, ops[..p]).Success? && Run(env, start, ops[..p + 1]).Success?
    ensures
      LaunchDoes(env.window, ops[q], Run(env, start, ops[..p]).value, Run(env, start, ops[..p + 1]).value)
  {
    RunPrefix(env, start, ops, p);
    LaunchHasConfig(env, start, ops, p);
    RunKeepsInvariant(env, start, ops[..p]);
    assert ops[..p][q] == ops[q];
    CurrentOpened(ops[..p], q);
    StepByConfig(env, Run(env, start, ops[..p]).value, ops[p].host, ops[q]);
  }

  /* Which launches count and which push */

  /** `at` lists in order the launches before `n` that have something to run. */
  ghost predicate LaunchList(ops: seq<Op>, n: nat, at: seq<nat>) {
    Increasing(at) && forall p: nat :: p in at <==> p < n && RunsAt(ops, p)
  }

  lemma {:induction false} LaunchesCounted(env: Env, start: State, ops: seq<Op>, n: nat) returns (at: seq<nat>)
    requires IsFresh(env, start) && Run(env, start, ops).Success? && n <= |ops|
    ensures LaunchList(ops, n, at) && |at| == LaunchesIn(ops[..n])
  {
    at := [];
    if n > 0 {
      at := LaunchesCounted(env, start, ops, n - 1);
      CountsByVolume(env, start, ops, n - 1);
      at := OneMoreLaunch(ops, n - 1, at);
    }
  }

  lemma {:induction false} CountsByVolume(env: Env, start: State, ops: seq<Op>, p: nat)
    requires IsFresh(env, start) && Run(env, start, ops).Success? && p < |ops|
    ensures EndsInLaunch(ops[..p + 1]) <==> RunsAt(ops, p)
    ensures LaunchesIn(ops[..p + 1]) == LaunchesIn(ops[..p]) + if RunsAt(ops, p) then 1 else 0
  {
    RunKeepsInvariant(env, start, ops);
    if ops[p].Launch? {
      LaunchHasConfig(env, start, ops, p);
    }
    EndsByVolume(ops, p);
    assert ops[..p + 1][..p] == ops[..p];
  }

  lemma {:induction false} OneMoreLaunch(ops: seq<Op>, n: nat, was: seq<nat>) returns (at: seq<nat>)
    requires LaunchList(ops, n, was)
    ensures LaunchList(ops, n + 1, at) && |at| == |was| + if RunsAt(ops, n) then 1 else 0
  {
    forall i | 0 <= i < |was| ensures was[i] < n {
      assert was[i] in was;
    }
    at := NextPosition(was, n, RunsAt(ops, n));
  }

  /** The launches that hand a kernel over are exactly those whose matching configure call has blocks and
      threads by volume, and whose number, one more than the launches of that kind before it, is in the
      window. */
  lemma {:induction false} PushPointsByVolume(env: Env, start: State, ops: seq<Op>, p: nat) returns (at: seq<nat>)
    requires IsFresh(env, start) && Run(env, start, ops).Success? && p < |ops|
    ensures LaunchList(ops, p, at)
    ensures p in PushPoints(env, ops) <==>
      RunsAt(ops, p) && BetweenCheckpoints(env.window, (1 + |at|) % TWO_TO_32)
  {
    at := LaunchesCounted(env, start, ops, p);
    PushPointsExact(env, ops, p);
    CountsByVolume(env, start, ops, p);
    assert ops[..p + 1][..p] == ops[..p];
  }

  /* Which arguments a launch takes */

  /** Call `p` sets an argument for the configuration call `q` opened at height `j`. */
  ghost predicate SetsFor(ops: seq<Op>, j: int, q: nat, p: nat) {
    q < p < |ops| && ops[p].SetArgument? && Depth(ops[..p]) == j + 1
  }

  ghost predicate ArgumentsAt(ops: seq<Op>, at: seq<nat>, args: seq<Arg>) {
    && |at| == |args|
    && forall i :: 0 <= i < |at| ==> at[i] < |ops| && ops[at[i]].SetArgument? && ops[at[i]].arg == args[i]
  }

  lemma {:induction false} StaysBefore(ops: seq<Op>, j: int, q: nat)
    requires OpensAndStays(ops, j, q) && q < |ops| - 1
    ensures OpensAndStays(ops[..|ops| - 1], j, q)
  {
    var front := ops[..|ops| - 1];
    assert front[..q] == ops[..q];
    forall k: nat | q < k <= |front| ensures Depth(front[..k]) > j {
      assert front[..k] == ops[..k];
    }
  }

  lemma {:induction false} SetsSnoc(ops: seq<Op>, op: Op, j: int, q: nat, p: nat)
    ensures SetsFor(ops + [op], j, q, p) <==>
      SetsFor(ops, j, q, p) || (q < p == |ops| && op.SetArgument? && Depth(ops) == j + 1)
  {
    if p <= |ops| {
      assert (ops + [op])[..p] == ops[..p];
      assert ops[..|ops|] == ops;
    }
  }

  /** The arguments of an open configuration are those set after it was opened and while no other was open
      above it, in the order they were set. */
  lemma {:induction false} ArgumentsOf(ops: seq<Op>, j: int, q: nat) returns (at: seq<nat>)
    requires OpensAndStays(ops, j, q)
    ensures Increasing(at) && ArgumentsAt(ops, at, ArgsAt(ops, j))
    ensures forall p: nat :: p in at <==> SetsFor(ops, j, q, p)
  {
    at := [];
    var front, op := ops[..|ops| - 1], ops[|ops| - 1];
    assert ops == front + [op];
    if q < |front| {
      StaysBefore(ops, j, q);
      at := ArgumentsOf(front, j, q);
      assert front[..|front|] == front && ops[..|front|] == front;
      forall p: nat ensures SetsFor(ops, j, q, p) <==>
        SetsFor(front, j, q, p) || (p == |front| && op.SetArgument? && Depth(front) == j + 1)
      {
        SetsSnoc(front, op, j, q, p);
      }
      at := MoreArguments(front, op, at, ArgsAt(front, j), op.SetArgument? && Depth(front) == j + 1);
    } else {
      assert ops[..q] == front;
    }
  }

  lemma {:induction false} MoreArguments(ops: seq<Op>, op: Op, was: seq<nat>, args: seq<Arg>, more: bool)
    returns (at: seq<nat>)
    requires Increasing(was) && ArgumentsAt(ops, was, args) && (more ==> op.SetArgument?)
    ensures Increasing(at) && ArgumentsAt(ops + [op], at, if more then args + [op.arg] else args)
    ensures forall p: nat :: p in at <==> p in was || (more && p == |ops|)
  {
    at := NextPosition(was, |ops|, more);
    forall i | 0 <= i < |was| ensures was[i] < |ops| && (ops + [op])[was[i]] == ops[was[i]] {
    }
  }

  lemma {:induction false} BindsArguments(env: Env, st: State, host: nat, c: LaunchConfig, args: seq<Arg>)
    requires st.stack != [] && st.stack[|st.stack| - 1] == c && c.args == Reversed(args) && !CannotLaunch(c)
    requires Launched(env, st, host).Success?
    ensures EntryOf(env, host).Some?
    ensures var f, next := EntryOf(env, host).value, Launched(env, st, host).value;
      && |args| <= |f.params| && next.bound == st.bound[f := Bound(BoundOf(st, f), args)]
      && BoundOf(next, f) == Bound(BoundOf(st, f), args)
      && (BetweenCheckpoints(env.window, st.nextUid) ==> next.pushed != [] && Carries(next.pushed, f, BoundOf(next, f)))
  {
    ReversedTwice(args);
    var f := EntryOf(env, host).value;
    var bound := Bound(BoundOf(st, f), args);
    PackedExactly(f.params, bound, Slots(f.params, bound));
  }

  /** The kernel pushed last is of the function, with the bound arguments packed into its parameters. */
  ghost predicate Carries(pushed: seq<Kernel>, f: FunctionInfo, bound: Bindings)
    requires pushed != [] && |bound| == |f.params|
  {
    var k := pushed[|pushed| - 1];
    k.entry == f && IsPacked(f.params, bound, k.params)
  }

  /** Parameter `i` of the launched function is bound to the `i`-th argument, if there are that many, and to
      what it was otherwise; no other function's parameters are touched. */
  ghost predicate ParametersBound(args: seq<Arg>, f: FunctionInfo, before: State, after: State) {
    && |args| <= |f.params|
    && (forall i :: 0 <= i < |f.params| ==>
          BoundOf(after, f)[i] == if i < |args| then Some(args[i]) else BoundOf(before, f)[i])
    && (forall g :: g in after.bound && g != f ==> g in before.bound && after.bound[g] == before.bound[g])
    && (forall g :: g in before.bound ==> g in after.bound)
  }

  lemma {:induction false} BindsCurrent(env: Env, front: seq<Op>, st: State, host: nat)
    requires StackIs(front, st) && st.stack != [] && Launched(env, st, host).Success?
    requires !CannotLaunch(Current(front)) && OpensAndStays(front, Depth(front) - 1, Opener(front, Depth(front) - 1))
    ensures EntryOf(env, host).Some?
    ensures var f, args := EntryOf(env, host).value, ArgsAt(front, Depth(front) - 1);
      var next := Launched(env, st, host).value;
      && ParametersBound(args, f, st, next)
      && (BetweenCheckpoints(env.window, st.nextUid) ==> next.pushed != [] && Carries(next.pushed, f, BoundOf(next, f)))
  {
    var args := ArgsAt(front, Depth(front) - 1);
    BindsArguments(env, st, host, Current(front), args);
  }

  /** In every run, a launch that is not refused is of a registered kernel with an implementation, and binds
      its parameters to the arguments set for its own configuration, in the order of the calls; a kernel handed
      over carries these bindings, packed. */
  lemma {:induction false} LaunchBinds(env: Env, start: State, ops: seq<Op>, p: nat, q: nat)
    returns (at: seq<nat>, args: seq<Arg>)
    requires IsFresh(env, start) && Run(env, start, ops).Success? && LaunchOf(ops, p, q) && HasWork(ops, q)
    ensures Run(env, start, ops[..p]).Success? && Run(env, start, ops[..p + 1]).Success?
    ensures Increasing(at) && forall k: nat :: k in at <==> SetsFor(ops[..p], Depth(ops[..p]) - 1, q, k)
    ensures ArgumentsAt(ops[..p], at, args) && EntryOf(env, ops[p].host).Some?
    ensures var f, before := EntryOf(env, ops[p].host).value, Run(env, start, ops[..p]).value;
      var after := Run(env, start, ops[..p + 1]).value;
      && ParametersBound(args, f, before, after)
      && (BetweenCheckpoints(env.window, before.nextUid) ==>
            after.pushed != [] && Carries(after.pushed, f, BoundOf(after, f)))
  {
    var front := ops[..p];
    RunPrefix(env, start, ops, p);
    LaunchHasConfig(env, start, ops, p);
    RunKeepsInvariant(env, start, front);
    assert front[q] == ops[q];
    CurrentOpened(front, q);
    OpenerMatches(front, Depth(front) - 1);
    at := ArgumentsOf(front, Depth(front) - 1, q);
    args := ArgsAt(front, Depth(front) - 1);
    BindsCurrent(env, front, Run(env, start, front).value, ops[p].host);
  }

  /** The function can take the arguments: there is a parameter for each, of the size bound to it before if
      any, and with them every parameter has a value that packs to the offset it was set with. */
  ghost predicate Takes(f: FunctionInfo, was: Bindings, args: seq<Arg>)
    requires |was| == |f.params|
  {
    && |args| <= |f.params|
    && (forall i :: 0 <= i < |args| && was[i].Some? ==> was[i].value.size == args[i].size)
    && exists bound: Bindings, slots: seq<Slot> :: PacksTo(f, was, args, bound, slots)
  }

  ghost predicate PacksTo(f: FunctionInfo, was: Bindings, args: seq<Arg>, bound: Bindings, slots: seq<Slot>)
    requires |was| == |f.params|
  {
    && |bound| == |f.params|
    && (forall i :: 0 <= i < |bound| ==> bound[i] == if i < |args| then Some(args[i]) else was[i])
    && IsPacked(f.params, bound, slots)
  }

  /** The arguments pack exactly when the check passes with them bound. */
  lemma {:induction false} PacksExactly(f: FunctionInfo, was: Bindings, args: seq<Arg>)
    requires |was| == |f.params|
    ensures (exists bound: Bindings, slots: seq<Slot> :: PacksTo(f, was, args, bound, slots)) <==>
      Launchable(f.params, Bound(was, args))
  {
    var after := Bound(was, args);
    PackedExactly(f.params, after, Slots(f.params, after));
    if Launchable(f.params, after) {
      assert PacksTo(f, was, args, after, Slots(f.params, after));
    }
    forall bound: Bindings, slots: seq<Slot> | PacksTo(f, was, args, bound, slots)
      ensures Launchable(f.params, after)
    {
      assert bound == after;
      PackedExactly(f.params, after, slots);
    }
  }

  lemma {:induction false} TakesExactly(uid: nat, was: Bindings, c: LaunchConfig, args: seq<Arg>, f: FunctionInfo)
    requires |was| == |f.params| && c.args == Reversed(args)
    ensures NewKernel(uid, was, c, f).Success? <==> Takes(f, was, args)
  {
    ReversedTwice(args);
    PacksExactly(f, was, args);
  }

  /** After any run, a launch aborts exactly when it is not refused and its host function is not registered, has
      no implementation, or cannot take the arguments set for the configuration. */
  lemma {:induction false} LaunchAbortsExactly(env: Env, start: State, ops: seq<Op>, host: nat, q: nat)
    requires IsFresh(env, start) && Run(env, start, ops).Success?
    requires Depth(ops) > 0 && OpensAndStays(ops, Depth(ops) - 1, q)
    ensures Run(env, start, ops + [Launch(host)]).Success? <==>
      || WrapsToZero(ops[q].grid) || WrapsToZero(ops[q].block)
      || (&& host in env.lookup && env.lookup[host].Some?
          && var f := env.lookup[host].value;
             Takes(f, BoundOf(Run(env, start, ops).value, f), ArgsAt(ops, Depth(ops) - 1)))
  {
    assert (ops + [Launch(host)])[..|ops|] == ops;
    RunKeepsInvariant(env, start, ops);
    CurrentOpened(ops, q);
    OpenerMatches(ops, Depth(ops) - 1);
    var st := Run(env, start, ops).value;
    if host in env.lookup && env.lookup[host].Some? {
      var f := env.lookup[host].value;
      TakesExactly(st.nextUid, BoundOf(st, f), Current(ops), ArgsAt(ops, Depth(ops) - 1), f);
    }
  }

  /* The stack and the error reported */

  /** In every run, the configuration at an open height is that of the call that opened it, with the arguments
      set for it, the newest in front. */
  lemma {:induction false} StackByCalls(env: Env, start: State, ops: seq<Op>, j: nat, q: nat)
    returns (at: seq<nat>, args: seq<Arg>)
    requires IsFresh(env, start) && Run(env, start, ops).Success? && OpensAndStays(ops, j, q)
    ensures Increasing(at) && forall k: nat :: k in at <==> SetsFor(ops, j, q, k)
    ensures ArgumentsAt(ops, at, args)
    ensures var stack := Run(env, start, ops).value.stack;
      && j < |stack| == Depth(ops)
      && stack[j] == LaunchConfig(ops[q].grid, ops[q].block, ops[q].sharedMem, ops[q].stream, Reversed(args))
  {
    RunKeepsInvariant(env, start, ops);
    assert ops[..|ops|] == ops;
    OpenerMatches(ops, j);
    OpenerUnique(ops, j, q, Opener(ops, j));
    at := ArgumentsOf(ops, j, q);
    args := ArgsAt(ops, j);
  }

  /** After every call of a run, the error reported is an invalid configuration exactly when the call was a
      launch with no blocks or threads to run. */
  lemma {:induction false} RunReports(env: Env, start: State, ops: seq<Op>)
    requires IsFresh(env, start) && Run(env, start, ops).Success? && ops != []
    ensures Run(env, start, ops).value.lastError ==
      if ops[|ops| - 1].Launch? && !RunsAt(ops, |ops| - 1) then InvalidConfiguration else CudaSuccess
  {
    var n := |ops| - 1;
    assert ops[..n + 1] == ops;
    RunPrefix(env, start, ops, n);
    if ops[n].Launch? {
      LaunchHasConfig(env, start, ops, n);
      RunKeepsInvariant(env, start, ops[..n]);
      var j := Depth(ops[..n]) - 1;
      var q := Opener(ops[..n], j);
      OpenerMatches(ops[..n], j);
      assert LaunchOf(ops, n, q) && ops[..n][q] == ops[q];
      LaunchByVolumes(env, start, ops, n, q);
      forall r: nat | LaunchOf(ops, n, r) ensures r == q {
        OpenerUnique(ops[..n], j, r, q);
      }
    }
  }

  /* Which kernel skips blocks */

  /** In every run, no kernel skips blocks unless it is the one to resume from: that one skips the blocks before
      the one to resume at, and is the first to run. */
  lemma {:induction false} OnlyFirstSkips(env: Env, start: State, ops: seq<Op>, i: nat)
    requires IsFresh(env, start) && Run(env, start, ops).Success? && |ops| + 2 < TWO_TO_32
    requires i < |Run(env, start, ops).value.pushed|
    ensures var w, k := env.window, Run(env, start, ops).value.pushed[i];
      k.ctasSkipped == if i == 0 && w.resume && w.resumeKernel > 0 then w.resumeCta else 0
  {
    RunFollowsWindow(env, start, ops);
    RunKeepsInvariant(env, start, ops);
    var st, points := Run(env, start, ops).value, PushPoints(env, ops);
    assert PushedAs(env, ops, points[i], st.pushed[i]);
    assert Uids(st.pushed)[i] == First(env.window) + i;
  }
}
