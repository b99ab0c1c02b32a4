/** The launch calls of the runtime API on the objects they update (libcuda/cuda_runtime_api.cc). */
module CudaLaunch {
  import opened Results
  import opened Sequences
  import opened KernelParams
  import opened LaunchStack
  import opened DriverLaunch

  class LaunchApi {
    const env: Env
    const functions: set<FunctionInfo>
    var launchStack: seq<LaunchConfig>
    var nextUid: nat
    var pushed: seq<Kernel>
    var restored: seq<nat>
    var lastError: CudaError

    /** What each function's parameters are bound to. */
    ghost function AllBound(): map<FunctionInfo, Bindings>
      reads functions
    {
      map f | f in functions :: f.bound
    }

    ghost function View(): State
      reads this, functions
    {
      State(launchStack, AllBound(), nextUid, pushed, restored, lastError)
    }

    ghost predicate Valid()
      reads functions
    {
      && (forall h :: h in env.lookup && env.lookup[h].Some? ==> env.lookup[h].value in functions)
      && (forall f :: f in functions ==> f.Valid())
    }

    method ConfigureCall(gridDim: Dim3, blockDim: Dim3, sharedMem: nat, stream: nat)
      requires Valid()
      modifies this`launchStack, this`lastError
      ensures Valid() && Success(View()) == Step(env, old(View()), Configure(gridDim, blockDim, sharedMem, stream))
    {
      launchStack := launchStack + [LaunchConfig(gridDim, blockDim, sharedMem, stream, [])];
      lastError := CudaSuccess;
      assert AllBound() == old(AllBound());
    }

    method SetupArgument(arg: Arg) returns (r: Result<CudaError, Abort>)
      requires Valid()
      modifies this`launchStack, this`lastError
      ensures match Step(env, old(View()), SetArgument(arg))
        case Failure(e) => r == Failure(e) && View() == old(View())
        case Success(next) => r == Success(CudaSuccess) && View() == next && Valid()
    {
      if launchStack == [] {
        return Failure(EmptyStack);
      }
      var top := |launchStack| - 1;
      launchStack := launchStack[top := launchStack[top].(args := [arg] + launchStack[top].args)];
      lastError := CudaSuccess;
      return Success(CudaSuccess);
    }

    constructor (env: Env, functions: set<FunctionInfo>)
      requires forall h :: h in env.lookup && env.lookup[h].Some? ==> env.lookup[h].value in functions
      requires forall f :: f in functions ==> f.Valid()
      ensures Valid() && this.env == env && this.functions == functions
      ensures (forall f :: f in functions ==> f.bound == Unset(|f.params|)) ==> IsFresh(env, View())
    {
      this.env, this.functions := env, functions;
      launchStack, nextUid, pushed, restored, lastError := [], 1, [], [], CudaSuccess;
    }

    /** Binds the arguments of a launch to the function's parameters. */
    method BindTo(f: FunctionInfo, args: seq<Arg>) returns (ok: bool)
      requires Valid() && f in functions
      modifies f`bound
      ensures Valid() && (ok <==> Bindable(old(f.bound), Reversed(args)))
      ensures ok ==> f.bound == Bound(old(f.bound), Reversed(args)) && AllBound() == old(AllBound())[f := f.bound]
    {
      ok := f.BindArguments(args);
    }

    /** Binds the arguments and gives the kernel its number. */
    method InitGrid(f: FunctionInfo, config: LaunchConfig) returns (r: Result<Kernel, Abort>)
      requires Valid() && f in functions
      modifies f`bound, this`nextUid
      ensures Valid() && r == NewKernel(old(nextUid), old(f.bound), config, f)
      ensures r.Success? ==> View() == Numbered(old(View()), config, f)
    {
      assert BoundOf(View(), f) == f.bound by { assert f.Valid(); }
      var uid := nextUid;
      nextUid := U32(nextUid + 1);
      var bound := BindTo(f, config.args);
      if !bound {
        return Failure(ArgumentMismatch);
      }
      assert f.Valid();
      var slots := f.Finalize();
      if slots.None? {
        return Failure(BadParameters);
      }
      return Success(Kernel(uid, f, config.grid, config.block, config.stream, slots.value, 0));
    }

    /** Pops the configuration on top and pushes its kernel, unless it is refused or skipped. */
    method Launch(host: nat) returns (r: Result<CudaError, Abort>)
      requires Valid()
      modifies this`launchStack, this`nextUid, this`pushed, this`restored, this`lastError, functions`bound
      ensures match Step(env, old(View()), LaunchStack.Launch(host))
        case Failure(e) => r == Failure(e)
        case Success(next) => r == Success(next.lastError) && View() == next && Valid()
    {
      if launchStack == [] {
        return Failure(EmptyStack);
      }
      ghost var before := View();
      var config := launchStack[|launchStack| - 1];
      if U32(U32(config.grid.x * config.grid.y) * config.grid.z) == 0
         || U32(U32(config.block.x * config.block.y) * config.block.z) == 0 {
        launchStack := launchStack[..|launchStack| - 1];
        lastError := InvalidConfiguration;
        assert View().bound == before.bound;
        return Success(InvalidConfiguration);
      }
      if host !in env.lookup {
        return Failure(Unregistered);
      }
      if env.lookup[host].None? {
        return Failure(NoImplementation);
      }
      r := LaunchGrid(env.lookup[host].value, config);
    }

    /** The rest of a launch, for a kernel that has an implementation. */
    method LaunchGrid(f: FunctionInfo, config: LaunchConfig) returns (r: Result<CudaError, Abort>)
      requires Valid() && f in functions && launchStack != []
      modifies this`launchStack, this`nextUid, this`pushed, this`restored, this`lastError, f`bound
      ensures match LaunchEntry(env.window, Popped(old(View())), config, f)
        case Failure(e) => r == Failure(e)
        case Success(next) => r == Success(CudaSuccess) && View() == next && Valid()
    {
      ghost var before := View();
      assert BoundOf(before, f) == f.bound by { assert f.Valid(); }
      var grid := InitGrid(f, config);
      if grid.Failure? {
        return Failure(grid.error);
      }
      PushOrSkip(grid.value);
      assert Popped(Numbered(before, config, f)) == Numbered(Popped(before), config, f);
      return Success(CudaSuccess);
    }

    /** Advances a kernel past its first blocks. */
    method SkipCtas(kernel: Kernel, resumeCta: nat) returns (grid: Kernel)
      ensures grid == kernel.(ctasSkipped := kernel.ctasSkipped + resumeCta)
    {
      grid := kernel;
      for i := 0 to resumeCta
        invariant grid == kernel.(ctasSkipped := kernel.ctasSkipped + i)
      {
        grid := grid.(ctasSkipped := grid.ctasSkipped + 1);
      }
    }

    /** At the kernel to resume from, restores memory and advances past the blocks already done. */
    method ResumeAt(kernel: Kernel) returns (grid: Kernel)
      requires kernel.ctasSkipped == 0
      modifies this`restored
      ensures grid == kernel.(ctasSkipped := SkippedCtas(env.window, kernel.uid))
      ensures restored ==
        if env.window.resume && kernel.uid == env.window.resumeKernel then old(restored) + [kernel.uid]
        else old(restored)
    {
      grid := kernel;
      if env.window.resume && kernel.uid == env.window.resumeKernel {
        restored := restored + [kernel.uid];
        grid := SkipCtas(kernel, env.window.resumeCta);
      }
    }

    /** Restores memory up to the kernel to resume from, and pushes the kernel if it is in the window. */
    method PushOrSkip(kernel: Kernel)
      requires launchStack != [] && kernel.ctasSkipped == 0
      modifies this`launchStack, this`pushed, this`restored, this`lastError
      ensures View() == AfterPush(env.window, Popped(old(View())), kernel)
    {
      var uid := kernel.uid;
      var grid := ResumeAt(kernel);
      lastError := CudaSuccess;
      if env.window.resume && uid < env.window.resumeKernel {
        restored := restored + [uid];
        launchStack := launchStack[..|launchStack| - 1];
        return;
      }
      if env.window.checkpoint && uid > U32(env.window.checkpointKernel) {
        launchStack := launchStack[..|launchStack| - 1];
        return;
      }
      pushed := pushed + [grid];
      launchStack := launchStack[..|launchStack| - 1];
    }

    /** Configures, sets every parameter with its recorded size and offset, and launches. */
    method CuLaunchKernel(call: DriverCall) returns (r: Result<(), Abort>)
      requires Valid() && WellFormed(env, call)
      modifies this`launchStack, this`nextUid, this`pushed, this`restored, this`lastError, functions`bound
      ensures match DriverLaunched(env, old(View()), call)
        case Failure(e) => r == Failure(e)
        case Success(next) => r == Success(()) && View() == next && Valid()
    {
      if call.extra {
        return Failure(ExtraUnsupported);
      }
      if call.host !in env.lookup {
        return Failure(Unregistered);
      }
      if env.lookup[call.host].None? {
        return Failure(NoImplementation);
      }
      var entry := env.lookup[call.host].value;
      ghost var before := View();
      ghost var args := DriverArgs(entry.params, call.kernelParams);
      var c := call.config;
      ConfigureCall(c.grid, c.block, c.sharedMem, c.stream);
      SetParameters(entry, call.kernelParams, before, c);
      LaunchOpsRun(env, before, c, args, call.host);
      var launched := Launch(call.host);
      return if launched.Failure? then Failure(launched.error) else Success(());
    }

    /** Sets each parameter from its pointer, with its recorded size and offset. */
    method SetParameters(entry: FunctionInfo, kernelParams: seq<nat>, ghost before: State, ghost c: LaunchConfig)
      requires Valid() && entry in functions && |kernelParams| == |entry.params|
      requires c.args == [] && View() == Configured(before, c)
      modifies this`launchStack, this`lastError
      ensures Valid()
      ensures View() == Configured(before, c.(args := Reversed(DriverArgs(entry.params, kernelParams))))
    {
      ghost var args := DriverArgs(entry.params, kernelParams);
      assert entry.Valid();
      assert c.(args := Reversed(args[..0])) == c;
      for i := 0 to |entry.params|
        invariant Valid() && View() == Configured(before, c.(args := Reversed(args[..i])))
      {
        var p := entry.paramConfigs[i];
        SetsOneMore(before, c, args, i);
        var set' := SetupArgument(Arg(kernelParams[i], p.size, p.offset));
      }
      assert args[..|args|] == args;
    }
  }

  lemma {:induction false} SetsOneMore(st: State, c: LaunchConfig, args: seq<Arg>, i: nat)
    requires i < |args|
    ensures SetOnTop(Configured(st, c.(args := Reversed(args[..i]))), args[i]) ==
      Success(Configured(st, c.(args := Reversed(args[..i + 1]))))
  {
    assert args[..i + 1] == args[..i] + [args[i]];
    ReversedBack(args[..i], args[i]);
    var on := c.(args := Reversed(args[..i]));
    assert (st.stack + [on])[..|st.stack|] == st.stack;
  }
}
