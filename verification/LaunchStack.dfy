/** Configuring, setting arguments and launching as a state machine over values: the launch stack, the
    kernel numbers and the resume and checkpoint window (libcuda/cuda_runtime_api.cc). */
module LaunchStack {
  import opened Results
  import opened Sequences
  import opened KernelParams

  datatype Dim3 = Dim3(x: nat, y: nat, z: nat)

  /** A configuration on the launch stack; `set_arg` puts the newest argument in front. */
  datatype LaunchConfig = LaunchConfig(grid: Dim3, block: Dim3, sharedMem: nat, stream: nat, args: seq<Arg>)

  /** A kernel as handed to the stream manager. */
  datatype Kernel = Kernel(
    uid: nat, entry: FunctionInfo, grid: Dim3, block: Dim3, stream: nat, params: seq<Slot>, ctasSkipped: nat)

  /** The resume and checkpoint options. */
  datatype Window = Window(
    resume: bool, resumeKernel: nat, resumeCta: nat, checkpoint: bool, checkpointKernel: int)

  /** The registered host functions; `None` for one without PTX implementation. */
  datatype Env = Env(lookup: map<nat, Option<FunctionInfo>>, window: Window)

  datatype Abort = EmptyStack | Unregistered | NoImplementation | ArgumentMismatch | BadParameters | ExtraUnsupported

  datatype CudaError = CudaSuccess | InvalidConfiguration

  datatype State = State(
    stack: seq<LaunchConfig>,
    bound: map<FunctionInfo, Bindings>,   // the arguments last bound to each function's parameters
    nextUid: nat,
    pushed: seq<Kernel>,                  // handed to the stream manager so far
    restored: seq<nat>,                   // the kernels whose checkpointed memory was loaded
    lastError: CudaError)

  /** The number of blocks or threads, in 32-bit unsigned arithmetic, is zero. */
  predicate CountsZero(d: Dim3) {
    U32(U32(d.x * d.y) * d.z) == 0
  }

  predicate CannotLaunch(c: LaunchConfig) {
    CountsZero(c.grid) || CountsZero(c.block)
  }

  /** Kernels before the one to resume from and after the one to checkpoint are skipped; the checkpoint
      number is a signed option compared as unsigned. */
  predicate InWindow(w: Window, uid: nat) {
    !(w.resume && uid < w.resumeKernel) && !(w.checkpoint && uid > U32(w.checkpointKernel))
  }

  function Unset(n: nat): Bindings {
    seq(n, i => None)
  }

  function BoundOf(st: State, f: FunctionInfo): (bound: Bindings)
    ensures |bound| == |f.params|
  {
    if f in st.bound && |st.bound[f]| == |f.params| then st.bound[f] else Unset(|f.params|)
  }

  /* The calls */

  datatype Op =
    | Configure(grid: Dim3, block: Dim3, sharedMem: nat, stream: nat)
    | SetArgument(arg: Arg)
    | Launch(host: nat)

  function Configured(st: State, c: LaunchConfig): State {
    st.(stack := st.stack + [c], lastError := CudaSuccess)
  }

  function SetOnTop(st: State, arg: Arg): Result<State, Abort> {
    if st.stack == [] then Failure(EmptyStack)
    else
      var top := st.stack[|st.stack| - 1];
      Success(st.(stack := st.stack[..|st.stack| - 1] + [top.(args := [arg] + top.args)], lastError := CudaSuccess))
  }

  function SkippedCtas(w: Window, uid: nat): nat {
    if w.resume && uid == w.resumeKernel then w.resumeCta else 0
  }

  function EntryOf(env: Env, host: nat): Option<FunctionInfo> {
    if host in env.lookup then env.lookup[host] else None
  }

  function Launched(env: Env, st: State, host: nat): Result<State, Abort> {
    if st.stack == [] then Failure(EmptyStack)
    else
      var c := st.stack[|st.stack| - 1];
      if CannotLaunch(c) then Success(Popped(st).(lastError := InvalidConfiguration))
      else if host !in env.lookup then Failure(Unregistered)
      else if env.lookup[host].None? then Failure(NoImplementation)
      else LaunchEntry(env.window, Popped(st), c, env.lookup[host].value)
  }

  /** The kernel of a launch, if its arguments can be bound and all parameters then have a value in place. */
  function NewKernel(uid: nat, bound: Bindings, c: LaunchConfig, f: FunctionInfo): Result<Kernel, Abort>
    requires |bound| == |f.params|
  {
    var args := Reversed(c.args);
    if !Bindable(bound, args) then Failure(ArgumentMismatch)
    else if !Launchable(f.params, Bound(bound, args)) then Failure(BadParameters)
    else Success(Kernel(uid, f, c.grid, c.block, c.stream, Slots(f.params, Bound(bound, args)), 0))
  }

  /** The rest of a launch, for a kernel that has an implementation. */
  function LaunchEntry(w: Window, st: State, c: LaunchConfig, f: FunctionInfo): Result<State, Abort> {
    match NewKernel(st.nextUid, BoundOf(st, f), c, f)
    case Failure(e) => Failure(e)
    case Success(k) => Success(AfterPush(w, Numbered(st, c, f), k))
  }

  /** The arguments are bound and the number is used up. */
  function Numbered(st: State, c: LaunchConfig, f: FunctionInfo): State {
    st.(bound := st.bound[f := Bound(BoundOf(st, f), Reversed(c.args))], nextUid := U32(st.nextUid + 1))
  }

  /** A new kernel is restored or not, pushed or skipped. */
  function AfterPush(w: Window, st: State, k: Kernel): State {
    st.(
      pushed := if InWindow(w, k.uid) then st.pushed + [k.(ctasSkipped := SkippedCtas(w, k.uid))] else st.pushed,
      restored := if w.resume && k.uid <= w.resumeKernel then st.restored + [k.uid] else st.restored,
      lastError := CudaSuccess)
  }

  function Popped(st: State): State
    requires st.stack != []
  {
    st.(stack := st.stack[..|st.stack| - 1])
  }

  function Step(env: Env, st: State, op: Op): Result<State, Abort> {
    match op
    case Configure(g, b, m, s) => Success(Configured(st, LaunchConfig(g, b, m, s, [])))
    case SetArgument(a) => SetOnTop(st, a)
    case Launch(h) => Launched(env, st, h)
  }

  /** A run ends at the first abort. */
  function Run(env: Env, st: State, ops: seq<Op>): Result<State, Abort> {
    if ops == [] then Success(st)
    else
      match Run(env, st, ops[..|ops| - 1])
      case Failure(e) => Failure(e)
      case Success(s) => Step(env, s, ops[|ops| - 1])
  }

  /* Which configuration a call refers to, read off the calls alone */

  function Change(op: Op): int {
    match op { case Configure(_, _, _, _) => 1 case SetArgument(_) => 0 case Launch(_) => -1 }
  }

  /** Configurations opened and not yet launched. */
  function Depth(ops: seq<Op>): int {
    if ops == [] then 0
    else
      Depth(ops[..|ops| - 1]) + Change(ops[|ops| - 1])
  }

  /** The last call that opened a configuration at height `j`. */
  function Opener(ops: seq<Op>, j: int): nat {
    if ops == [] then 0
    else if ops[|ops| - 1].Configure? && Depth(ops[..|ops| - 1]) == j then |ops| - 1
    else Opener(ops[..|ops| - 1], j)
  }

  /** The arguments set at height `j` since it was last opened, in the order they were set. */
  function ArgsAt(ops: seq<Op>, j: int): seq<Arg> {
    if ops == [] then []
    else
      var front, last := ops[..|ops| - 1], ops[|ops| - 1];
      if last.Configure? && Depth(front) == j then []
      else if last.SetArgument? && Depth(front) == j + 1 then ArgsAt(front, j) + [last.arg]
      else ArgsAt(front, j)
  }

  /** Call `q` opens height `j` and nothing up to the end closes it: its matching bracket is still to come. */
  ghost predicate OpensAndStays(ops: seq<Op>, j: int, q: nat) {
    && q < |ops| && ops[q].Configure? && Depth(ops[..q]) == j
    && forall k: nat :: q < k <= |ops| ==> Depth(ops[..k]) > j
  }

  lemma {:induction false} OpenerMatches(ops: seq<Op>, j: int)
    requires 0 <= j < Depth(ops)
    requires forall k: nat :: k <= |ops| ==> Depth(ops[..k]) >= 0
    ensures OpensAndStays(ops, j, Opener(ops, j))
  {
    var front, n := ops[..|ops| - 1], |ops| - 1;
    assert ops[..n + 1] == ops;
    forall k: nat | k <= n ensures front[..k] == ops[..k] {}
    if !(ops[n].Configure? && Depth(front) == j) {
      OpenerMatches(front, j);
      var q := Opener(front, j);
      forall k: nat | q < k <= |ops| ensures Depth(ops[..k]) > j {
        assert k <= n ==> ops[..k] == front[..k];
      }
    }
  }

  /** A height has only one opening call that is still unmatched. */
  lemma {:induction false} OpenerUnique(ops: seq<Op>, j: int, p: nat, q: nat)
    requires OpensAndStays(ops, j, p) && OpensAndStays(ops, j, q)
    ensures p == q
  {
  }

  function ConfigAt(ops: seq<Op>, j: int): LaunchConfig {
    var q := Opener(ops, j);
    if q < |ops| && ops[q].Configure? then
      LaunchConfig(ops[q].grid, ops[q].block, ops[q].sharedMem, ops[q].stream, Reversed(ArgsAt(ops, j)))
    else LaunchConfig(Dim3(0, 0, 0), Dim3(0, 0, 0), 0, 0, [])
  }

  /** The configuration a call made after `ops` refers to. */
  function Current(ops: seq<Op>): LaunchConfig {
    ConfigAt(ops, Depth(ops) - 1)
  }

  /** `ops` ends with a launch that has something to run. */
  predicate EndsInLaunch(ops: seq<Op>) {
    && ops != [] && ops[|ops| - 1].Launch?
    && !CannotLaunch(Current(ops[..|ops| - 1]))
  }

  function LaunchesIn(ops: seq<Op>): nat {
    if ops == [] then 0
    else LaunchesIn(ops[..|ops| - 1]) + (if EndsInLaunch(ops) then 1 else 0)
  }

  /** The number of the next kernel. */
  function NextUid(ops: seq<Op>): nat {
    U32(1 + LaunchesIn(ops))
  }

  /** The argument last bound to parameter `i` of `f`: the `i`-th one set for the latest launch of `f`
      that had more than `i` arguments. */
  function LastBinding(env: Env, ops: seq<Op>, f: FunctionInfo, i: nat): Option<Arg> {
    if ops == [] then None
    else
      var front, last := ops[..|ops| - 1], ops[|ops| - 1];
      if EndsInLaunch(ops) && EntryOf(env, last.host) == Some(f) && i < |ArgsAt(front, Depth(front) - 1)| then
        Some(ArgsAt(front, Depth(front) - 1)[i])
      else LastBinding(env, front, f, i)
  }

  function LastBindings(env: Env, ops: seq<Op>, f: FunctionInfo): (bound: Bindings)
    ensures |bound| == |f.params|
  {
    seq(|f.params|, i requires 0 <= i < |f.params| => LastBinding(env, ops, f, i))
  }

  /** The kernel of the launch that ends `ops`. */
  function KernelOf(env: Env, ops: seq<Op>, f: FunctionInfo): Kernel
    requires ops != []
  {
    var front := ops[..|ops| - 1];
    var c, uid := Current(front), NextUid(front);
    Kernel(uid, f, c.grid, c.block, c.stream, Slots(f.params, LastBindings(env, ops, f)), SkippedCtas(env.window, uid))
  }

  /** `ops` ends with a launch that is neither empty nor outside the window. */
  predicate EndsInPush(env: Env, ops: seq<Op>) {
    EndsInLaunch(ops) && InWindow(env.window, NextUid(ops[..|ops| - 1]))
  }

  /** The positions of the launches that push a kernel. */
  function PushPoints(env: Env, ops: seq<Op>): (points: seq<nat>)
    ensures forall i :: 0 <= i < |points| ==> points[i] < |ops|
  {
    if ops == [] then []
    else if EndsInPush(env, ops) then PushPoints(env, ops[..|ops| - 1]) + [|ops| - 1]
    else PushPoints(env, ops[..|ops| - 1])
  }

  lemma {:induction false} PointsIncrease(env: Env, ops: seq<Op>)
    ensures Increasing(PushPoints(env, ops))
  {
    if ops != [] {
      PointsIncrease(env, ops[..|ops| - 1]);
    }
  }

  /** The push points are, in increasing order, exactly the non-empty launches inside the window. */
  lemma {:induction false} PushPointsExact(env: Env, ops: seq<Op>, p: nat)
    ensures Increasing(PushPoints(env, ops))
    ensures p in PushPoints(env, ops) <==> p < |ops| && EndsInPush(env, ops[..p + 1])
  {
    PointsIncrease(env, ops);
    if ops != [] {
      var n := |ops| - 1;
      PushPointsExact(env, ops[..n], p);
      if p < n {
        assert ops[..n][..p + 1] == ops[..p + 1];
      } else if p == n {
        assert ops[..p + 1] == ops;
      }
    }
  }

  /* What every run keeps */

  /** Nothing was launched or bound yet. */
  ghost predicate IsFresh(env: Env, st: State) {
    && st.stack == [] && st.nextUid == 1 && st.pushed == [] && st.restored == []
    && forall h :: h in env.lookup && env.lookup[h].Some? ==>
         BoundOf(st, env.lookup[h].value) == Unset(|env.lookup[h].value.params|)
  }

  ghost predicate StackIs(ops: seq<Op>, st: State) {
    && |st.stack| == Depth(ops)
    && forall j :: 0 <= j < |st.stack| ==> st.stack[j] == ConfigAt(ops, j)
  }

  ghost predicate BindingsAre(env: Env, ops: seq<Op>, st: State) {
    forall h :: h in env.lookup && env.lookup[h].Some? ==>
      BoundOf(st, env.lookup[h].value) == LastBindings(env, ops, env.lookup[h].value)
  }

  ghost predicate PushedAre(env: Env, ops: seq<Op>, st: State) {
    var points := PushPoints(env, ops);
    && |st.pushed| == |points|
    && forall i :: 0 <= i < |points| ==> PushedAs(env, ops, points[i], st.pushed[i])
  }

  /** `k` is the kernel the launch at position `p` pushes. */
  ghost predicate PushedAs(env: Env, ops: seq<Op>, p: nat, k: Kernel)
    requires p < |ops|
  {
    && ops[p].Launch? && EntryOf(env, ops[p].host).Some?
    && k == KernelOf(env, ops[..p + 1], EntryOf(env, ops[p].host).value)
  }

  ghost predicate RunInv(env: Env, ops: seq<Op>, st: State) {
    StackIs(ops, st) && st.nextUid == NextUid(ops) && BindingsAre(env, ops, st) && PushedAre(env, ops, st)
  }

  lemma {:induction false} ConfigPrefix(ops: seq<Op>, op: Op, j: int)
    requires !(op.Configure? && Depth(ops) == j) && !(op.SetArgument? && Depth(ops) == j + 1)
    requires Opener(ops, j) < |ops|
    ensures ConfigAt(ops + [op], j) == ConfigAt(ops, j)
  {
    assert (ops + [op])[..|ops|] == ops;
  }

  lemma {:induction false} OpenerInside(ops: seq<Op>, j: int)
    requires ops != []
    ensures Opener(ops, j) < |ops|
  {
    if |ops| > 1 {
      OpenerInside(ops[..|ops| - 1], j);
    }
  }

  /** The configurations below the top are untouched by any call. */
  lemma {:induction false} LowerConfigs(ops: seq<Op>, op: Op, j: int)
    requires 0 <= j < Depth(ops) - (if op.Configure? then 0 else 1)
    ensures ConfigAt(ops + [op], j) == ConfigAt(ops, j)
  {
    OpenerInside(ops, j);
    ConfigPrefix(ops, op, j);
  }

  lemma {:induction false} OpenedConfig(ops: seq<Op>, op: Op)
    requires op.Configure?
    ensures ConfigAt(ops + [op], Depth(ops)) == LaunchConfig(op.grid, op.block, op.sharedMem, op.stream, [])
  {
    assert (ops + [op])[..|ops|] == ops;
    assert Reversed<Arg>([]) == [];
  }

  /** Every height in use was opened by a configuration call. */
  ghost predicate Opened(ops: seq<Op>) {
    forall j :: 0 <= j < Depth(ops) ==> Opener(ops, j) < |ops| && ops[Opener(ops, j)].Configure?
  }

  lemma {:induction false} ArgumentAdded(ops: seq<Op>, op: Op)
    requires op.SetArgument? && Depth(ops) > 0 && Opened(ops)
    ensures Current(ops + [op]) == Current(ops).(args := [op.arg] + Current(ops).args)
  {
    var j := Depth(ops) - 1;
    assert (ops + [op])[..|ops|] == ops;
    ReversedBack(ArgsAt(ops, j), op.arg);
  }

  lemma {:induction false} DepthSnoc(ops: seq<Op>, op: Op)
    ensures Depth(ops + [op]) == Depth(ops) + Change(op)
  {
    assert (ops + [op])[..|ops|] == ops;
  }

  /** The heights a call leaves alone. */
  function Untouched(ops: seq<Op>, op: Op): int {
    Depth(ops) - if op.Configure? then 0 else 1
  }

  lemma {:induction false} StackStep(env: Env, ops: seq<Op>, st: State, op: Op)
    requires StackIs(ops, st) && Step(env, st, op).Success? && Opened(ops)
    ensures StackIs(ops + [op], Step(env, st, op).value)
  {
    var next := Step(env, st, op).value;
    DepthSnoc(ops, op);
    StackBelow(env, st, op);
    forall j | 0 <= j < Untouched(ops, op) ensures next.stack[j] == ConfigAt(ops + [op], j) {
      LowerConfigs(ops, op, j);
    }
    match op {
      case Configure(_, _, _, _) => OpenedConfig(ops, op);
      case SetArgument(_) => ArgumentAdded(ops, op);
      case Launch(_) =>
    }
  }

  /** A call changes the height of the stack as it changes the depth, and touches only the top. */
  lemma {:induction false} StackBelow(env: Env, st: State, op: Op)
    requires Step(env, st, op).Success?
    ensures var next := Step(env, st, op).value;
      && |next.stack| == |st.stack| + Change(op)
      && (forall j :: 0 <= j < |st.stack| - (if op.Configure? then 0 else 1) ==> next.stack[j] == st.stack[j])
  {
  }

  /** What a call does to bindings, numbers and pushed kernels. */
  ghost predicate Effect(env: Env, ops: seq<Op>, st: State, op: Op, next: State) {
    if EndsInLaunch(ops + [op]) then
      && EntryOf(env, op.host).Some?
      && LaunchEffect(env, Current(ops), ArgsAt(ops, Depth(ops) - 1), st, EntryOf(env, op.host).value, next)
    else next.bound == st.bound && next.nextUid == st.nextUid && next.pushed == st.pushed
  }

  ghost predicate LaunchEffect(env: Env, c: LaunchConfig, args: seq<Arg>, st: State, f: FunctionInfo, next: State) {
    var after, uid := Bound(BoundOf(st, f), args), st.nextUid;
    && next.bound == st.bound[f := after]
    && next.nextUid == U32(uid + 1)
    && next.pushed ==
      if InWindow(env.window, uid) then
        st.pushed +
        [Kernel(uid, f, c.grid, c.block, c.stream, Slots(f.params, after), SkippedCtas(env.window, uid))]
      else st.pushed
  }

  lemma {:induction false} LaunchedEffect(env: Env, st: State, host: nat, c: LaunchConfig, args: seq<Arg>)
    requires st.stack != [] && st.stack[|st.stack| - 1] == c && c.args == Reversed(args)
    requires Launched(env, st, host).Success?
    ensures var next := Launched(env, st, host).value;
      if CannotLaunch(c) then next.bound == st.bound && next.nextUid == st.nextUid && next.pushed == st.pushed
      else EntryOf(env, host).Some? && LaunchEffect(env, c, args, st, EntryOf(env, host).value, next)
  {
    ReversedTwice(args);
  }

  lemma {:induction false} StepEffect(env: Env, ops: seq<Op>, st: State, op: Op)
    requires StackIs(ops, st) && Step(env, st, op).Success?
    requires Opened(ops)
    ensures Effect(env, ops, st, op, Step(env, st, op).value)
  {
    if op.Launch? {
      EndsSnoc(ops, op);
      LaunchedEffect(env, st, op.host, Current(ops), ArgsAt(ops, Depth(ops) - 1));
    } else {
      EndsSnoc(ops, op);
    }
  }

  lemma {:induction false} EndsSnoc(ops: seq<Op>, op: Op)
    ensures EndsInLaunch(ops + [op]) <==> op.Launch? && !CannotLaunch(Current(ops))
    ensures LaunchesIn(ops + [op]) == LaunchesIn(ops) + if EndsInLaunch(ops + [op]) then 1 else 0
  {
    assert (ops + [op])[..|ops|] == ops;
  }

  lemma {:induction false} PointsSnoc(env: Env, ops: seq<Op>, op: Op)
    ensures EndsInPush(env, ops + [op]) <==> EndsInLaunch(ops + [op]) && InWindow(env.window, NextUid(ops))
    ensures PushPoints(env, ops + [op]) ==
      if EndsInPush(env, ops + [op]) then PushPoints(env, ops) + [|ops|] else PushPoints(env, ops)
  {
    assert (ops + [op])[..|ops|] == ops;
  }

  lemma {:induction false} KernelSnoc(env: Env, ops: seq<Op>, op: Op, f: FunctionInfo)
    ensures var c, uid := Current(ops), NextUid(ops);
      KernelOf(env, ops + [op], f) == Kernel(uid, f, c.grid, c.block, c.stream,
        Slots(f.params, LastBindings(env, ops + [op], f)), SkippedCtas(env.window, uid))
  {
    assert (ops + [op])[..|ops|] == ops;
  }

  lemma {:induction false} BindingsStep(env: Env, ops: seq<Op>, st: State, op: Op, next: State)
    requires BindingsAre(env, ops, st) && Effect(env, ops, st, op, next)
    ensures BindingsAre(env, ops + [op], next)
  {
    var all := ops + [op];
    forall h | h in env.lookup && env.lookup[h].Some?
      ensures BoundOf(next, env.lookup[h].value) == LastBindings(env, all, env.lookup[h].value)
    {
      var f := env.lookup[h].value;
      LastBindingsStep(env, ops, op, f);
    }
  }

  lemma {:induction false} LastBindingsStep(env: Env, ops: seq<Op>, op: Op, f: FunctionInfo)
    ensures LastBindings(env, ops + [op], f) ==
      if EndsInLaunch(ops + [op]) && EntryOf(env, op.host) == Some(f) then
        Bound(LastBindings(env, ops, f), ArgsAt(ops, Depth(ops) - 1))
      else LastBindings(env, ops, f)
  {
    assert (ops + [op])[..|ops|] == ops;
  }

  lemma {:induction false} PushedBefore(env: Env, ops: seq<Op>, op: Op, p: nat, k: Kernel)
    requires p < |ops| && PushedAs(env, ops, p, k)
    ensures PushedAs(env, ops + [op], p, k)
  {
    assert (ops + [op])[..p + 1] == ops[..p + 1];
  }

  lemma {:induction false} PushedNow(env: Env, ops: seq<Op>, st: State, op: Op, f: FunctionInfo, next: State)
    requires op.Launch? && EntryOf(env, op.host) == Some(f) && EndsInLaunch(ops + [op])
    requires st.nextUid == NextUid(ops) && BindingsAre(env, ops, st)
    requires InWindow(env.window, st.nextUid)
    requires LaunchEffect(env, Current(ops), ArgsAt(ops, Depth(ops) - 1), st, f, next)
    ensures |next.pushed| == |st.pushed| + 1 && PushedAs(env, ops + [op], |ops|, next.pushed[|st.pushed|])
  {
    assert (ops + [op])[..|ops| + 1] == ops + [op];
    assert BoundOf(st, f) == LastBindings(env, ops, f);
    LastBindingsStep(env, ops, op, f);
    KernelSnoc(env, ops, op, f);
  }

  lemma {:induction false} PushedStep(env: Env, ops: seq<Op>, st: State, op: Op, next: State)
    requires StackIs(ops, st) && st.nextUid == NextUid(ops) && PushedAre(env, ops, st)
    requires BindingsAre(env, ops, st) && Effect(env, ops, st, op, next)
    ensures PushedAre(env, ops + [op], next)
  {
    var points, all := PushPoints(env, ops), PushPoints(env, ops + [op]);
    EndsSnoc(ops, op);
    PointsSnoc(env, ops, op);
    forall i | 0 <= i < |points| ensures PushedAs(env, ops + [op], points[i], st.pushed[i]) {
      PushedBefore(env, ops, op, points[i], st.pushed[i]);
    }
    if EndsInPush(env, ops + [op]) {
      PushedNow(env, ops, st, op, EntryOf(env, op.host).value, next);
    }
  }

  lemma {:induction false} CountOn(n: nat)
    ensures U32(U32(n) + 1) == U32(n + 1)
  {
  }

  lemma {:induction false} UidStep(env: Env, ops: seq<Op>, st: State, op: Op, next: State)
    requires st.nextUid == NextUid(ops) && Effect(env, ops, st, op, next)
    ensures next.nextUid == NextUid(ops + [op])
  {
    EndsSnoc(ops, op);
    CountOn(1 + LaunchesIn(ops));
    assert next.nextUid == if EndsInLaunch(ops + [op]) then U32(st.nextUid + 1) else st.nextUid;
  }

  lemma {:induction false} StepKeepsInvariant(env: Env, ops: seq<Op>, st: State, op: Op)
    requires RunInv(env, ops, st) && Step(env, st, op).Success?
    requires forall k: nat :: k <= |ops| ==> Depth(ops[..k]) >= 0
    ensures RunInv(env, ops + [op], Step(env, st, op).value)
  {
    var next := Step(env, st, op).value;
    assert Opened(ops) by {
      forall j | 0 <= j < Depth(ops) ensures OpensAndStays(ops, j, Opener(ops, j)) {
        OpenerMatches(ops, j);
      }
    }
    StackStep(env, ops, st, op);
    StepEffect(env, ops, st, op);
    BindingsStep(env, ops, st, op, next);
    PushedStep(env, ops, st, op, next);
    UidStep(env, ops, st, op, next);
  }

  /** In every run: the stack holds, for each open height, the matching configuration with its own
      arguments; kernels are numbered by the non-empty launches before them; each parameter is bound to
      the last argument set for it; and exactly the non-empty launches in the window are pushed, in order. */
  lemma {:induction false} RunKeepsInvariant(env: Env, start: State, ops: seq<Op>)
    requires IsFresh(env, start) && Run(env, start, ops).Success?
    ensures RunInv(env, ops, Run(env, start, ops).value)
    ensures forall k: nat :: k <= |ops| ==> Depth(ops[..k]) >= 0
  {
    if ops == [] {
      forall h | h in env.lookup && env.lookup[h].Some?
        ensures BoundOf(start, env.lookup[h].value) == LastBindings(env, ops, env.lookup[h].value) {}
    } else {
      var n := |ops| - 1;
      var front, op := ops[..n], ops[n];
      RunKeepsInvariant(env, start, front);
      var st := Run(env, start, front).value;
      assert front + [op] == ops;
      StepKeepsInvariant(env, front, st, op);
      forall k: nat | k <= |ops| ensures Depth(ops[..k]) >= 0 {
        if k <= n {
          assert ops[..k] == front[..k];
        } else {
          assert ops[..k] == ops;
        }
      }
    }
  }
}
