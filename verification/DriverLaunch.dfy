/** What launches mean to their callers: which grids are refused, whose arguments a kernel gets, and
    `cuLaunchKernel` as a run of the launch protocol (libcuda/cuda_runtime_api.cc). */
module DriverLaunch {
  import opened Results
  import opened Sequences
  import opened KernelParams
  import opened LaunchStack

  /* Refused grids */

  function Volume(d: Dim3): nat {
    d.x * d.y * d.z
  }

  /** A grid or block is refused as empty exactly when 2^32 divides its volume: besides the empty ones,
      also those whose volume wraps around to zero. */
  lemma {:induction false} RefusedExactly(d: Dim3)
    ensures CountsZero(d) <==> Volume(d) % TWO_TO_32 == 0
    ensures Volume(d) < TWO_TO_32 ==> (CountsZero(d) <==> d.x == 0 || d.y == 0 || d.z == 0)
  {
    ProductModulo(d.x * d.y, d.z);
    if d.x > 0 && d.y > 0 && d.z > 0 {
      PositiveProduct(d.x, d.y);
      PositiveProduct(d.x * d.y, d.z);
    }
  }

  lemma {:induction false} PositiveProduct(a: nat, b: nat)
    requires a > 0 && b > 0
    ensures a * b > 0
  {
  }

  lemma {:induction false} ProductModulo(a: nat, b: nat)
    ensures (a % TWO_TO_32 * b) % TWO_TO_32 == (a * b) % TWO_TO_32
  {
    var q, r := a / TWO_TO_32, a % TWO_TO_32;
    assert a * b == (TWO_TO_32 * q + r) * b == TWO_TO_32 * (q * b) + r * b;
    var k := r * b;
    assert (TWO_TO_32 * (q * b) + k) % TWO_TO_32 == k % TWO_TO_32;
  }

  /** A grid of 65536 by 65536 blocks is refused as empty. */
  lemma {:induction false} LargeGridRefused()
    ensures CountsZero(Dim3(65536, 65536, 1)) && Volume(Dim3(65536, 65536, 1)) == TWO_TO_32
  {
  }

  /* A run of the protocol for one launch */

  lemma {:induction false} RunConcat(env: Env, st: State, a: seq<Op>, b: seq<Op>)
    ensures Run(env, st, a + b) ==
      match Run(env, st, a) { case Failure(e) => Failure(e) case Success(s) => Run(env, s, b) }
  {
    if b == [] {
      assert a + b == a;
    } else {
      RunConcat(env, st, a, b[..|b| - 1]);
      assert (a + b)[..|a + b| - 1] == a + b[..|b| - 1];
    }
  }

  lemma {:induction false} RunOne(env: Env, st: State, op: Op)
    ensures Run(env, st, [op]) == Step(env, st, op)
  {
    assert [op][..0] == [];
    assert Run(env, st, []) == Success(st);
  }

  /** Setting arguments one after the other. */
  function Sets(args: seq<Arg>): seq<Op> {
    if args == [] then [] else Sets(args[..|args| - 1]) + [SetArgument(args[|args| - 1])]
  }

  lemma {:induction false} SetsRun(env: Env, st: State, c: LaunchConfig, args: seq<Arg>)
    requires c.args == []
    ensures Run(env, Configured(st, c), Sets(args)) == Success(Configured(st, c.(args := Reversed(args))))
  {
    if args == [] {
      assert Reversed(args) == [];
      assert c.(args := []) == c;
    } else {
      var front, a := args[..|args| - 1], args[|args| - 1];
      SetsRun(env, st, c, front);
      RunConcat(env, Configured(st, c), Sets(front), [SetArgument(a)]);
      RunOne(env, Configured(st, c.(args := Reversed(front))), SetArgument(a));
      assert args == front + [a];
      ReversedBack(front, a);
      assert (st.stack + [c.(args := Reversed(front))])[..|st.stack|] == st.stack;
    }
  }

  /** One launch with its own configuration and arguments. */
  function LaunchOps(c: LaunchConfig, args: seq<Arg>, host: nat): seq<Op> {
    [Configure(c.grid, c.block, c.sharedMem, c.stream)] + Sets(args) + [Launch(host)]
  }

  lemma {:induction false} LaunchOpsRun(env: Env, st: State, c: LaunchConfig, args: seq<Arg>, host: nat)
    requires c.args == []
    ensures Run(env, st, LaunchOps(c, args, host)) ==
      Launched(env, Configured(st, c.(args := Reversed(args))), host)
  {
    var open := Configure(c.grid, c.block, c.sharedMem, c.stream);
    RunConcat(env, st, [open] + Sets(args), [Launch(host)]);
    RunConcat(env, st, [open], Sets(args));
    RunOne(env, st, open);
    SetsRun(env, st, c, args);
    RunOne(env, Configured(st, c.(args := Reversed(args))), Launch(host));
  }

  /** One launch with its own configuration: refused, or bound and numbered on the state before it. */
  lemma {:induction false} LaunchOpsEffect(env: Env, st: State, c: LaunchConfig, args: seq<Arg>, host: nat)
    requires c.args == [] && EntryOf(env, host).Some?
    ensures Run(env, st, LaunchOps(c, args, host)) ==
      if CannotLaunch(c) then Success(st.(lastError := InvalidConfiguration))
      else LaunchEntry(env.window, st, c.(args := Reversed(args)), EntryOf(env, host).value)
  {
    LaunchOpsRun(env, st, c, args, host);
    var full := c.(args := Reversed(args));
    TopLaunched(env, st, full, host);
    ErrorIrrelevant(env.window, st, full, EntryOf(env, host).value);
  }

  lemma {:induction false} TopLaunched(env: Env, st: State, c: LaunchConfig, host: nat)
    requires EntryOf(env, host).Some?
    ensures Launched(env, Configured(st, c), host) ==
      if CannotLaunch(c) then Success(st.(lastError := InvalidConfiguration))
      else LaunchEntry(env.window, st.(lastError := CudaSuccess), c, EntryOf(env, host).value)
  {
    assert (st.stack + [c])[..|st.stack|] == st.stack;
    assert Configured(st, c).(stack := st.stack) == st.(lastError := CudaSuccess);
  }

  lemma {:induction false} ErrorIrrelevant(w: Window, st: State, c: LaunchConfig, f: FunctionInfo)
    ensures LaunchEntry(w, st.(lastError := CudaSuccess), c, f) == LaunchEntry(w, st, c, f)
  {
    assert BoundOf(st.(lastError := CudaSuccess), f) == BoundOf(st, f);
  }

  /** A launch goes through exactly when its arguments can be bound and all parameters then have a value
      at the right offset. */
  lemma {:induction false} EntryEffect(w: Window, st: State, c: LaunchConfig, args: seq<Arg>, f: FunctionInfo)
    ensures var r, after := LaunchEntry(w, st, c.(args := Reversed(args)), f), Bound(BoundOf(st, f), args);
      && (r.Success? <==> Bindable(BoundOf(st, f), args) && Launchable(f.params, after))
      && (r.Success? ==> r.value.stack == st.stack && r.value.bound == st.bound[f := after])
      && (r.Success? ==> r.value.nextUid == U32(st.nextUid + 1))
      && (r.Success? && !InWindow(w, st.nextUid) ==> r.value.pushed == st.pushed)
      && (r.Success? && InWindow(w, st.nextUid) ==>
            var k := Kernel(
              st.nextUid, f, c.grid, c.block, c.stream, Slots(f.params, after), SkippedCtas(w, st.nextUid));
            r.value.pushed == st.pushed + [k])
  {
    ReversedTwice(args);
  }

  /** A launch with its own configuration that neither is refused nor aborts. */
  ghost predicate GoesThrough(env: Env, st: State, c: LaunchConfig, args: seq<Arg>, host: nat) {
    && c.args == [] && !CannotLaunch(c) && EntryOf(env, host).Some?
    && Run(env, st, LaunchOps(c, args, host)).Success?
  }

  /** The arguments the launched function's parameters are bound to after the launch. */
  ghost function BoundAfter(env: Env, st: State, c: LaunchConfig, args: seq<Arg>, host: nat): Bindings
    requires GoesThrough(env, st, c, args, host)
  {
    BoundOf(Run(env, st, LaunchOps(c, args, host)).value, EntryOf(env, host).value)
  }

  /** The state after a launch that goes through. */
  lemma {:induction false} ThroughEffect(env: Env, st: State, c: LaunchConfig, args: seq<Arg>, host: nat)
    requires GoesThrough(env, st, c, args, host)
    ensures var f, next := EntryOf(env, host).value, Run(env, st, LaunchOps(c, args, host)).value;
      var after := Bound(BoundOf(st, f), args);
      && Bindable(BoundOf(st, f), args) && Launchable(f.params, after)
      && next.bound == st.bound[f := after] && BoundAfter(env, st, c, args, host) == after
      && next.nextUid == U32(st.nextUid + 1)
      && next.pushed ==
        if InWindow(env.window, st.nextUid) then
          st.pushed + [Kernel(st.nextUid, f, c.grid, c.block, c.stream, Slots(f.params, after),
                              SkippedCtas(env.window, st.nextUid))]
        else st.pushed
  {
    var f := EntryOf(env, host).value;
    LaunchOpsEffect(env, st, c, args, host);
    EntryEffect(env.window, st, c, args, f);
  }

  /** After a launch that goes through, parameter `i` is bound to the launch's own argument `i` exactly when
      the launch has one, or the binding before it was already the same; otherwise it is bound to what it was. */
  lemma {:induction false} OwnArguments(
    env: Env, st: State, c: LaunchConfig, args: seq<Arg>, host: nat, i: nat, a: Arg)
    requires GoesThrough(env, st, c, args, host) && i < |EntryOf(env, host).value.params|
    ensures |args| <= |EntryOf(env, host).value.params|
    ensures BoundAfter(env, st, c, args, host)[i] == Some(a) <==>
      if i < |args| then a == args[i] else BoundOf(st, EntryOf(env, host).value)[i] == Some(a)
  {
    ThroughEffect(env, st, c, args, host);
  }

  /** If the launch goes through after `ops` as well, its function has the same arguments then. */
  ghost predicate SameAfter(
    env: Env, start: State, st: State, ops: seq<Op>, c: LaunchConfig, args: seq<Arg>, host: nat)
    requires GoesThrough(env, st, c, args, host)
  {
    Run(env, start, ops).Success? && GoesThrough(env, Run(env, start, ops).value, c, args, host) ==>
      BoundAfter(env, Run(env, start, ops).value, c, args, host) == BoundAfter(env, st, c, args, host)
  }

  /** A launch that goes through after some run depends on no earlier launch, over all runs from the same
      start, exactly when it sets all its parameters. */
  lemma {:induction false} IndependentExactly(
    env: Env, start: State, before: seq<Op>, c: LaunchConfig, args: seq<Arg>, host: nat)
    requires IsFresh(env, start) && Run(env, start, before).Success?
    requires GoesThrough(env, Run(env, start, before).value, c, args, host)
    ensures (forall ops :: SameAfter(env, start, Run(env, start, before).value, ops, c, args, host)) <==>
      |args| == |EntryOf(env, host).value.params|
  {
    var st := Run(env, start, before).value;
    ThroughEffect(env, st, c, args, host);
    if |args| == |EntryOf(env, host).value.params| {
      forall ops ensures SameAfter(env, start, st, ops, c, args, host) {
        if Run(env, start, ops).Success? && GoesThrough(env, Run(env, start, ops).value, c, args, host) {
          ThroughEffect(env, Run(env, start, ops).value, c, args, host);
        }
      }
    } else {
      var moved := OtherArguments(env, st, c, args, host);
      RunConcat(env, start, before, LaunchOps(c, moved, host));
      assert !SameAfter(env, start, st, before + LaunchOps(c, moved, host), c, args, host);
    }
  }

  /** A launch with all arguments, differing from those the function would have at the first parameter
      left unset, goes through first and changes what the launch then runs with. */
  lemma {:induction false} OtherArguments(env: Env, st: State, c: LaunchConfig, args: seq<Arg>, host: nat)
    returns (moved: seq<Arg>)
    requires GoesThrough(env, st, c, args, host) && |args| < |EntryOf(env, host).value.params|
    ensures GoesThrough(env, st, c, moved, host)
    ensures var other := Run(env, st, LaunchOps(c, moved, host)).value;
      && GoesThrough(env, other, c, args, host)
      && BoundAfter(env, other, c, args, host) != BoundAfter(env, st, c, args, host)
  {
    var f, n := EntryOf(env, host).value, |args|;
    ThroughEffect(env, st, c, args, host);
    var after := Bound(BoundOf(st, f), args);
    forall i | 0 <= i < |after| ensures after[i].Some? {
      assert Placeable(f.params, after, i);
    }
    var last := after[n].value.(start := after[n].value.start + 1);
    var full := after[n := Some(last)];
    MovedLaunchable(f.params, after, n, last);
    moved := seq(|after|, i requires 0 <= i < |after| => full[i].value);
    assert Bound(BoundOf(st, f), moved) == full;
    LaunchesIf(env, st, c, moved, host);
    var other := Run(env, st, LaunchOps(c, moved, host)).value;
    assert Bound(full, args) == full;
    LaunchesIf(env, other, c, args, host);
  }

  /** A launch whose arguments can be bound and leave all parameters in place goes through. */
  lemma {:induction false} LaunchesIf(env: Env, st: State, c: LaunchConfig, args: seq<Arg>, host: nat)
    requires c.args == [] && !CannotLaunch(c) && EntryOf(env, host).Some?
    requires var f := EntryOf(env, host).value;
      Bindable(BoundOf(st, f), args) && Launchable(f.params, Bound(BoundOf(st, f), args))
    ensures GoesThrough(env, st, c, args, host)
    ensures var f := EntryOf(env, host).value;
      && BoundAfter(env, st, c, args, host) == Bound(BoundOf(st, f), args)
      && BoundOf(Run(env, st, LaunchOps(c, args, host)).value, f) == Bound(BoundOf(st, f), args)
  {
    LaunchOpsEffect(env, st, c, args, host);
    EntryEffect(env.window, st, c, args, EntryOf(env, host).value);
    ThroughEffect(env, st, c, args, host);
  }

  /** Where an argument's bytes come from has no part in the check before a launch. */
  lemma {:induction false} MovedLaunchable(params: seq<Param>, bound: Bindings, n: nat, moved: Arg)
    requires n < |params| == |bound| && Launchable(params, bound) && bound[n].Some?
    requires moved == bound[n].value.(start := moved.start)
    ensures Launchable(params, bound[n := Some(moved)])
  {
    var other := bound[n := Some(moved)];
    forall i | 0 <= i < |params| ensures Placeable(params, other, i) {
      assert Placeable(params, bound, i);
      MovedPlace(params, bound, n, moved, i);
    }
  }

  lemma {:induction false} MovedPlace(params: seq<Param>, bound: Bindings, n: nat, moved: Arg, i: nat)
    requires n < |params| == |bound| && i < |params| && bound[n].Some?
    requires moved == bound[n].value.(start := moved.start)
    ensures Place(params, bound[n := Some(moved)], i) == Place(params, bound, i)
    ensures LaunchAlign(params[i], bound[n := Some(moved)][i]) == LaunchAlign(params[i], bound[i])
    ensures CopySize(params[i], bound[n := Some(moved)][i]) == CopySize(params[i], bound[i])
  {
    if i > 0 {
      MovedPlace(params, bound, n, moved, i - 1);
    }
  }

  /** After any launch that goes through, a launch of the same function with only the first `n` of the same
      arguments goes through as well, and runs with all of the first launch's parameters. */
  lemma {:induction false} EarlierArgumentsReused(
    env: Env, st: State, c: LaunchConfig, args: seq<Arg>, host: nat, d: LaunchConfig, n: nat)
    requires GoesThrough(env, st, c, args, host) && n <= |args|
    requires d.args == [] && !CannotLaunch(d)
    ensures var one := Run(env, st, LaunchOps(c, args, host)).value;
      && GoesThrough(env, one, d, args[..n], host)
      && BoundAfter(env, one, d, args[..n], host) == BoundAfter(env, st, c, args, host)
    ensures var f, one := EntryOf(env, host).value, Run(env, st, LaunchOps(c, args, host)).value;
      var two := Run(env, one, LaunchOps(d, args[..n], host)).value;
      InWindow(env.window, one.nextUid) ==>
        && |two.pushed| == |one.pushed| + 1
        && two.pushed[|one.pushed|].params == Slots(f.params, BoundAfter(env, st, c, args, host))
  {
    ThroughEffect(env, st, c, args, host);
    var f, one := EntryOf(env, host).value, Run(env, st, LaunchOps(c, args, host)).value;
    var after := BoundAfter(env, st, c, args, host);
    assert BoundOf(one, f) == after && Bound(after, args[..n]) == after;
    LaunchOpsEffect(env, one, d, args[..n], host);
    EntryEffect(env.window, one, d, args[..n], f);
    ThroughEffect(env, one, d, args[..n], host);
  }

  /* The driver call */

  /** Arguments bound before have their parameters' sizes. */
  ghost predicate SizesAgree(params: seq<Param>, bound: Bindings) {
    |bound| == |params| && forall i :: 0 <= i < |params| && bound[i].Some? ==> bound[i].value.size == params[i].size
  }

  /** A kernel the driver can launch: its parameters were parsed and its offsets fit `unsigned`. */
  ghost predicate Parsed(params: seq<Param>) {
    AllDeclarable(params) && forall i :: 0 <= i < |params| ==> Configs(params)[i].offset < TWO_TO_32
  }

  datatype DriverCall = DriverCall(host: nat, config: LaunchConfig, kernelParams: seq<nat>, extra: bool)

  /** The configuration is the call's own, with no arguments yet, and there is a pointer per parameter. */
  predicate WellFormed(env: Env, call: DriverCall) {
    && call.config.args == []
    && match EntryOf(env, call.host) { case Some(f) => |call.kernelParams| == |f.params| case None => true }
  }

  function DriverLaunched(env: Env, st: State, call: DriverCall): Result<State, Abort>
    requires WellFormed(env, call)
  {
    if call.extra then Failure(ExtraUnsupported)
    else if call.host !in env.lookup then Failure(Unregistered)
    else if env.lookup[call.host].None? then Failure(NoImplementation)
    else
      var f := env.lookup[call.host].value;
      Run(env, st, LaunchOps(call.config, DriverArgs(f.params, call.kernelParams), call.host))
  }

  function DriverSlots(params: seq<Param>, starts: seq<nat>): seq<Slot>
    requires |starts| == |params|
  {
    seq(|params|, i requires 0 <= i < |params| => Slot(starts[i], Configs(params)[i].offset, params[i].size))
  }

  lemma {:induction false} DriverBinding(params: seq<Param>, bound: Bindings, starts: seq<nat>)
    requires |bound| == |params| == |starts| && Parsed(params)
    ensures var args := DriverArgs(params, starts);
      && (Bindable(bound, args) <==> SizesAgree(params, bound))
      && Launchable(params, Bound(bound, args))
      && Slots(params, Bound(bound, args)) == DriverSlots(params, starts)
      && SizesAgree(params, Bound(bound, args))
  {
    var args := DriverArgs(params, starts);
    forall i | 0 <= i < |params| ensures Configs(params)[i].size == params[i].size {
      RecordedConfig(params, i);
    }
    DriverArgsLaunch(params, starts, Bound(bound, args));
    forall i | 0 <= i < |params| ensures Accepts(bound[i], args[i]) <==>
      (bound[i].Some? ==> bound[i].value.size == params[i].size) {
    }
    assert Bindable(bound, args) <==> SizesAgree(params, bound);
  }

  /** What a driver launch pushes: pointer `i` with parameter `i`'s own size and offset. */
  ghost predicate DriverEffect(env: Env, st: State, call: DriverCall, f: FunctionInfo, next: State)
    requires |call.kernelParams| == |f.params|
  {
    var args, uid, c := DriverArgs(f.params, call.kernelParams), st.nextUid, call.config;
    && next.stack == st.stack
    && next.bound == st.bound[f := Bound(BoundOf(st, f), args)]
    && next.nextUid == U32(uid + 1)
    && next.pushed ==
      if InWindow(env.window, uid) then
        st.pushed +
        [Kernel(uid, f, c.grid, c.block, c.stream, DriverSlots(f.params, call.kernelParams),
                SkippedCtas(env.window, uid))]
      else st.pushed
  }

  /** `cuLaunchKernel`, whatever happened before, either refuses an empty grid and changes nothing else,
      or binds every pointer to its own parameter, and leaves the launch stack as it was. It goes through
      exactly when arguments bound before have their parameters' sizes. */
  lemma {:induction false} DriverLaunchBinds(env: Env, st: State, call: DriverCall)
    requires WellFormed(env, call) && !call.extra
    requires EntryOf(env, call.host).Some? && Parsed(EntryOf(env, call.host).value.params)
    ensures var r, f := DriverLaunched(env, st, call), EntryOf(env, call.host).value;
      if CannotLaunch(call.config) then r == Success(st.(lastError := InvalidConfiguration))
      else
        && (r.Success? <==> SizesAgree(f.params, BoundOf(st, f)))
        && (r.Success? ==> DriverEffect(env, st, call, f, r.value))
  {
    var f, c := EntryOf(env, call.host).value, call.config;
    var args := DriverArgs(f.params, call.kernelParams);
    LaunchOpsEffect(env, st, c, args, call.host);
    DriverBinding(f.params, BoundOf(st, f), call.kernelParams);
    EntryEffect(env.window, st, c, args, f);
  }

  /* Programs that launch through the driver call only */

  ghost predicate AllParsed(env: Env) {
    forall h :: h in env.lookup && env.lookup[h].Some? ==> Parsed(env.lookup[h].value.params)
  }

  ghost predicate SizesKept(env: Env, st: State) {
    forall h :: h in env.lookup && env.lookup[h].Some? ==>
      SizesAgree(env.lookup[h].value.params, BoundOf(st, env.lookup[h].value))
  }

  ghost predicate CanCall(env: Env, call: DriverCall) {
    !call.extra && EntryOf(env, call.host).Some?
  }

  function DriverRun(env: Env, start: State, calls: seq<DriverCall>): Result<State, Abort>
    requires forall k :: 0 <= k < |calls| ==> WellFormed(env, calls[k])
  {
    if calls == [] then Success(start)
    else
      match DriverRun(env, start, calls[..|calls| - 1])
      case Failure(e) => Failure(e)
      case Success(s) => DriverLaunched(env, s, calls[|calls| - 1])
  }

  lemma {:induction false} DriverKeepsSizes(env: Env, st: State, call: DriverCall)
    requires AllParsed(env) && SizesKept(env, st) && WellFormed(env, call) && CanCall(env, call)
    ensures DriverLaunched(env, st, call).Success?
    ensures SizesKept(env, DriverLaunched(env, st, call).value)
    ensures DriverLaunched(env, st, call).value.stack == st.stack
  {
    var f := EntryOf(env, call.host).value;
    DriverLaunchBinds(env, st, call);
    DriverBinding(f.params, BoundOf(st, f), call.kernelParams);
    var next := DriverLaunched(env, st, call).value;
    forall h | h in env.lookup && env.lookup[h].Some?
      ensures SizesAgree(env.lookup[h].value.params, BoundOf(next, env.lookup[h].value))
    {
      var g := env.lookup[h].value;
      assert SizesAgree(g.params, BoundOf(st, g));
      if g != f || CannotLaunch(call.config) {
        assert BoundOf(next, g) == BoundOf(st, g);
      }
    }
  }

  /** From sizes that agree, launches through `cuLaunchKernel` alone never abort. */
  lemma {:induction false} DriverRunKeepsSizes(env: Env, start: State, calls: seq<DriverCall>)
    requires AllParsed(env) && SizesKept(env, start)
    requires forall k :: 0 <= k < |calls| ==> WellFormed(env, calls[k]) && CanCall(env, calls[k])
    ensures DriverRun(env, start, calls).Success?
    ensures var end := DriverRun(env, start, calls).value; end.stack == start.stack && SizesKept(env, end)
  {
    if calls != [] {
      var front := calls[..|calls| - 1];
      DriverRunKeepsSizes(env, start, front);
      DriverKeepsSizes(env, DriverRun(env, start, front).value, calls[|calls| - 1]);
    }
  }

  /** A program that launches registered kernels through `cuLaunchKernel` alone never aborts, and leaves
      the launch stack empty after each of its calls. */
  lemma {:induction false} DriverRunsNeverAbort(env: Env, start: State, calls: seq<DriverCall>, k: nat)
    requires AllParsed(env) && IsFresh(env, start) && k <= |calls|
    requires forall i :: 0 <= i < |calls| ==> WellFormed(env, calls[i]) && CanCall(env, calls[i])
    ensures var r := DriverRun(env, start, calls[..k]); r.Success? && r.value.stack == []
  {
    DriverRunKeepsSizes(env, start, calls[..k]);
  }
}
